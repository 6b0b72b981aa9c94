/** DER integers and two-integer signatures: what the signer and the verifier print, and
    what the signer's parser reads. */
module DerSignature {
  import opened Wrappers

  type Byte = b: nat | b < 256

  const P256Order: nat := 0xFFFFFFFF00000000FFFFFFFFFFFFFFFFBCE6FAADA7179E84F3B9CAC2FC632551

  // ---- Big-endian numbers -------------------------------------------------

  function FromBytes(bytes: seq<Byte>): nat {
    if bytes == [] then 0 else 256 * FromBytes(bytes[..|bytes| - 1]) + bytes[|bytes| - 1]
  }

  /** The number of bytes a number needs, and one for zero. */
  function ByteLength(n: nat): nat {
    if n < 256 then 1 else 1 + ByteLength(n / 256)
  }

  /** `to_bytes`: the last `length` big-endian digits. */
  function ToBytes(n: nat, length: nat): (bytes: seq<Byte>)
    ensures |bytes| == length
  {
    if length == 0 then [] else ToBytes(n / 256, length - 1) + [n % 256]
  }

  function Stripped(bytes: seq<Byte>): seq<Byte> {
    if bytes != [] && bytes[0] == 0 then Stripped(bytes[1..]) else bytes
  }

  function Power(k: nat): nat {
    if k == 0 then 1 else 256 * Power(k - 1)
  }

  lemma {:induction false} BytesRoundTrip(n: nat, length: nat)
    requires n < Power(length)
    ensures FromBytes(ToBytes(n, length)) == n
  {
    if length > 0 {
      BytesRoundTrip(n / 256, length - 1);
      assert ToBytes(n, length)[..length - 1] == ToBytes(n / 256, length - 1);
    }
  }

  lemma {:induction false} LengthSuffices(n: nat)
    ensures n < Power(ByteLength(n))
  {
    if n >= 256 {
      LengthSuffices(n / 256);
    }
  }

  lemma {:induction false} LengthIsLeast(n: nat, k: nat)
    requires n < Power(k) && 0 < k
    ensures ByteLength(n) <= k
  {
    assert Power(k) == 256 * Power(k - 1) && Power(0) == 1;
    if n >= 256 && k > 1 {
      LengthIsLeast(n / 256, k - 1);
    }
  }

  lemma {:induction false} ShortestBeginsNonzero(n: nat)
    ensures n != 0 ==> ToBytes(n, ByteLength(n))[0] != 0
  {
    if n >= 256 {
      ShortestBeginsNonzero(n / 256);
      assert ToBytes(n, ByteLength(n))[0] == ToBytes(n / 256, ByteLength(n / 256))[0];
    } else {
      assert ToBytes(n, 1) == ToBytes(n / 256, 0) + [n % 256];
    }
  }

  // ---- DER integers -------------------------------------------------------

  /** The contents octets that `der_integer` writes. */
  function Contents(n: nat): seq<Byte> {
    var encoded := Stripped(ToBytes(n, ByteLength(n)));
    var nonempty := if encoded == [] then [0] else encoded;
    if nonempty[0] >= 128 then [0] + nonempty else nonempty
  }

  /** Section 8.3 of ITU-T X.690: at least one octet, and the first nine bits neither all
      zero nor all one; here also not negative. */
  predicate MinimalNonNegative(contents: seq<Byte>) {
    && contents != [] && contents[0] < 128
    && (|contents| > 1 ==> !(contents[0] == 0 && contents[1] < 128))
  }

  lemma ContentsShape(n: nat)
    ensures n == 0 ==> Contents(n) == [0]
    ensures n != 0 ==> var shortest := ToBytes(n, ByteLength(n));
      shortest[0] != 0 && Contents(n) == (if shortest[0] >= 128 then [0] + shortest else shortest)
  {
    ShortestBeginsNonzero(n);
    if n == 0 {
      assert ToBytes(0, 1) == [0];
      assert [0][1..] == [];
    }
  }

  lemma {:induction false} LeadingZero(bytes: seq<Byte>)
    ensures FromBytes([0] + bytes) == FromBytes(bytes)
  {
    if bytes == [] {
      assert ([0] + bytes)[..0] == [];
    } else {
      LeadingZero(bytes[..|bytes| - 1]);
      assert ([0] + bytes)[..|bytes|] == [0] + bytes[..|bytes| - 1];
    }
  }

  /** The contents octets are a minimal form of the number. */
  lemma ContentsMinimal(n: nat)
    ensures MinimalNonNegative(Contents(n)) && FromBytes(Contents(n)) == n
  {
    var shortest := ToBytes(n, ByteLength(n));
    ContentsShape(n);
    LengthSuffices(n);
    BytesRoundTrip(n, ByteLength(n));
    LeadingZero(shortest);
    if n == 0 {
      assert [0][..0] == [];
      assert FromBytes([0]) == 0;
    }
  }

  lemma {:induction false} NonzeroFirst(bytes: seq<Byte>)
    requires bytes != [] && bytes[0] != 0
    ensures ByteLength(FromBytes(bytes)) == |bytes| && FromBytes(bytes) != 0
    ensures ToBytes(FromBytes(bytes), |bytes|) == bytes
  {
    var front := bytes[..|bytes| - 1];
    if front == [] {
      assert bytes == [bytes[0]];
      assert FromBytes(bytes) == bytes[0];
      assert ToBytes(bytes[0], 1) == ToBytes(0, 0) + [bytes[0]];
    } else {
      NonzeroFirst(front);
      assert FromBytes(bytes) / 256 == FromBytes(front) && FromBytes(bytes) % 256 == bytes[|bytes| - 1];
      assert bytes == front + [bytes[|bytes| - 1]];
    }
  }

  /** The minimal non-negative form of a number is unique, so it is what is printed. */
  lemma MinimalFormIsUnique(contents: seq<Byte>)
    requires MinimalNonNegative(contents)
    ensures contents == Contents(FromBytes(contents))
  {
    ContentsShape(FromBytes(contents));
    if contents[0] != 0 {
      NonzeroFirst(contents);
    } else if |contents| == 1 {
      assert contents == [0] + [];
      LeadingZero([]);
    } else {
      assert contents == [0] + contents[1..];
      LeadingZero(contents[1..]);
      NonzeroFirst(contents[1..]);
    }
  }

  lemma ContentsLength(n: nat)
    requires n < Power(32)
    ensures 0 < |Contents(n)| <= 33
  {
    ContentsShape(n);
    LengthIsLeast(n, 32);
  }

  /** The tag, one length octet and the contents; no byte holds a length of 256 or more. */
  function DerInteger(n: nat): Option<seq<Byte>> {
    if |Contents(n)| < 256 then Some([0x02, |Contents(n)| as Byte] + Contents(n)) else None
  }

  /** `der_signature`: refuses a body that needs the long form of the length. */
  function DerSignature(r: nat, s: nat): Option<seq<Byte>> {
    match (DerInteger(r), DerInteger(s))
    case (Some(first), Some(second)) =>
      var body := first + second;
      if |body| < 128 then Some([0x30, |body| as Byte] + body) else None
    case (_, _) => None
  }

  // ---- The parser ---------------------------------------------------------

  /** A slice as Python takes it: what there is of it. */
  function Slice(der: seq<Byte>, from: nat, to: nat): seq<Byte>
    requires from <= to
  {
    if to <= |der| then der[from..to] else if from <= |der| then der[from..] else []
  }

  /** One integer at `offset`: its value and the offset after it. */
  function IntegerAt(der: seq<Byte>, offset: nat): Option<(nat, nat)> {
    if offset + 1 >= |der| || der[offset] != 0x02 then None
    else
      var end := offset + 2 + der[offset + 1];
      Some((FromBytes(Slice(der, offset + 2, end)), end))
  }

  function Parsed(der: seq<Byte>): Option<(nat, nat)> {
    if |der| < 8 || der[0] != 0x30 || der[1] != |der| - 2 then None
    else match IntegerAt(der, 2)
      case None => None
      case Some((r, middle)) =>
        match IntegerAt(der, middle)
        case None => None
        case Some((s, end)) => if end == |der| then Some((r, s)) else None
  }

  /** `parse_der_signature`, reading beyond the end being a failure. */
  method ParseDerSignature(der: seq<Byte>) returns (signature: Option<(nat, nat)>)
    ensures signature == Parsed(der)
  {
    if |der| < 8 || der[0] != 0x30 || der[1] != |der| - 2 {
      return None;
    }
    var values: seq<nat> := [];
    var offset := 2;
    for i := 0 to 2
      invariant |values| == i && 2 <= offset
      invariant i == 0 ==> offset == 2
      invariant i == 1 ==> IntegerAt(der, 2) == Some((values[0], offset))
      invariant i == 2 ==> IntegerAt(der, 2).Some? && IntegerAt(der, 2).value.0 == values[0]
                           && IntegerAt(der, IntegerAt(der, 2).value.1) == Some((values[1], offset))
    {
      if offset + 1 >= |der| || der[offset] != 0x02 {
        return None;
      }
      var length := der[offset + 1];
      values := values + [FromBytes(Slice(der, offset + 2, offset + 2 + length))];
      offset := offset + 2 + length;
    }
    return if offset == |der| then Some((values[0], values[1])) else None;
  }

  /** The sequence tag, the length, then each tag, length and contents, and nothing else. */
  predicate Encodes(der: seq<Byte>, a: seq<Byte>, b: seq<Byte>) {
    var middle := 4 + |a|;
    && 8 <= |der| == |a| + |b| + 6 && der[0] == 0x30 && der[1] == |der| - 2
    && der[2] == 0x02 && der[3] == |a| && der[4..middle] == a
    && der[middle] == 0x02 && der[middle + 1] == |b| && der[middle + 2..] == b
  }

  /** Reading a whole encoding gives the values of its two contents. */
  lemma ParsesEncoding(der: seq<Byte>, a: seq<Byte>, b: seq<Byte>)
    requires Encodes(der, a, b)
    ensures Parsed(der) == Some((FromBytes(a), FromBytes(b)))
  {
    var middle := 4 + |a|;
    assert IntegerAt(der, 2) == Some((FromBytes(a), middle));
    assert Slice(der, middle + 2, |der|) == b;
  }

  /** What was read is a whole encoding. */
  lemma ReadIsEncoding(der: seq<Byte>) returns (a: seq<Byte>, b: seq<Byte>)
    requires Parsed(der).Some?
    ensures Encodes(der, a, b)
  {
    var middle := 4 + der[3];
    assert IntegerAt(der, 2).value.1 == middle;
    a, b := der[4..middle], der[middle + 2..];
  }

  /** The parser accepts exactly such encodings; it asks for no minimal form. */
  lemma ParserAcceptsExactly(der: seq<Byte>)
    ensures Parsed(der).Some? <==> exists a, b :: Encodes(der, a, b)
  {
    if Parsed(der).Some? {
      var a, b := ReadIsEncoding(der);
    }
    forall a, b | Encodes(der, a, b) ensures Parsed(der).Some? {
      ParsesEncoding(der, a, b);
    }
  }

  lemma Assembled(r: nat, s: nat)
    requires 0 < |Contents(r)| <= 33 && 0 < |Contents(s)| <= 33
    ensures DerSignature(r, s).Some? && |DerSignature(r, s).value| <= 72
    ensures Encodes(DerSignature(r, s).value, Contents(r), Contents(s))
  {
    var a, b := Contents(r), Contents(s);
    var first, second := DerInteger(r).value, DerInteger(s).value;
    var der := [0x30, |first + second| as Byte] + (first + second);
    assert der[2..4 + |a|] == first && der[4 + |a|..] == second;
    assert der[4..4 + |a|] == first[2..] == a;
    assert der[6 + |a|..] == second[2..] == b;
    assert der[4 + |a|] == second[0] && der[5 + |a|] == second[1];
  }

  /** For all scalars of 256 bits the signature has a short-form length, is made of the
      minimal forms of section 8.3, and parses back to the same scalars. */
  lemma SignatureRoundTrip(r: nat, s: nat)
    requires r < Power(32) && s < Power(32)
    ensures DerSignature(r, s).Some?
    ensures var der := DerSignature(r, s).value;
      && |der| <= 72 && Encodes(der, Contents(r), Contents(s))
      && MinimalNonNegative(Contents(r)) && MinimalNonNegative(Contents(s))
      && Parsed(der) == Some((r, s))
  {
    ContentsLength(r);
    ContentsLength(s);
    ContentsMinimal(r);
    ContentsMinimal(s);
    Assembled(r, s);
    ParsesEncoding(DerSignature(r, s).value, Contents(r), Contents(s));
  }

  /** The parser is not strict: the same scalars also parse from a longer form. */
  lemma ParserAcceptsLongerForms()
    ensures Parsed([0x30, 0x07, 0x02, 0x02, 0x00, 0x01, 0x02, 0x01, 0x01]) == Parsed([0x30, 0x06, 0x02, 0x01, 0x01, 0x02, 0x01, 0x01])
  {
    ParsesEncoding([0x30, 0x07, 0x02, 0x02, 0x00, 0x01, 0x02, 0x01, 0x01], [0x00, 0x01], [0x01]);
    ParsesEncoding([0x30, 0x06, 0x02, 0x01, 0x01, 0x02, 0x01, 0x01], [0x01], [0x01]);
    LeadingZero([0x01]);
    assert [0x00, 0x01] == [0x00] + [0x01];
  }

  // ---- Low s --------------------------------------------------------------

  /** The signer's normalisation. */
  function LowS(s: nat): int {
    if s > P256Order / 2 then P256Order - s else s
  }

  /** The order of the curve, in decimal; it is odd, so no scalar is its own complement. */
  lemma OrderIsP256(s: nat)
    ensures P256Order == 115792089210356248762697446949407573529996955224135760342422259061068512044369
    ensures s + s != P256Order
  {
    assert P256Order % 2 == 1;
  }

  /** Of a scalar and its complement exactly one is low, and both normalise to it. */
  lemma LowSChoosesOne(s: nat)
    requires 0 < s < P256Order
    ensures 0 < LowS(s) <= P256Order / 2
    ensures LowS(P256Order - s) == LowS(s) && LowS(s) in {s, P256Order - s}
    ensures s <= P256Order / 2 <==> !(P256Order - s <= P256Order / 2)
  {
    assert P256Order % 2 == 1;
  }
}
