/** The two encodings the activation scripts use: UTF-8 for the bytes they hash and
    UTF-16 code units for the order of object keys. */
module Unicode {
  import opened Wrappers

  type Byte = b: nat | b < 256

  type CodePoint = c: nat | c < 0x11_0000

  type Text = seq<CodePoint>

  predicate Surrogate(c: CodePoint) { 0xD800 <= c <= 0xDFFF }

  /** A Python string that has a UTF-8 encoding. */
  predicate Scalar(text: Text) {
    forall i :: 0 <= i < |text| ==> !Surrogate(text[i])
  }

  /** A name or a fixed string of a format, as text. */
  function Literal(name: string): (text: Text)
    ensures |text| == |name| && Scalar(text)
  {
    seq(|name|, i requires 0 <= i < |name| => name[i] as CodePoint)
  }

  /** The code points of a string. */
  function Scalars(text: string): (points: Text)
    ensures |points| == |text| && forall i :: 0 <= i < |text| ==> points[i] == text[i] as int
  {
    seq(|text|, i requires 0 <= i < |text| => text[i] as CodePoint)
  }

  // ---- UTF-8 --------------------------------------------------------------

  function Utf8Char(c: CodePoint): (bytes: seq<Byte>)
    ensures 0 < |bytes| == Utf8Length(bytes[0])
  {
    if c < 0x80 then [c]
    else if c < 0x800 then [0xC0 + c / 64, 0x80 + c % 64]
    else if c < 0x1_0000 then [0xE0 + c / 4096, 0x80 + c / 64 % 64, 0x80 + c % 64]
    else [0xF0 + c / 262144, 0x80 + c / 4096 % 64, 0x80 + c / 64 % 64, 0x80 + c % 64]
  }

  /** The length of an encoding that begins with this byte. */
  function Utf8Length(first: Byte): nat {
    if first < 0x80 then 1 else if first < 0xE0 then 2 else if first < 0xF0 then 3 else 4
  }

  function Utf8(text: Text): seq<Byte> {
    if text == [] then [] else Utf8Char(text[0]) + Utf8(text[1..])
  }

  lemma Utf8CharIsInjective(c: CodePoint, d: CodePoint)
    requires Utf8Char(c) == Utf8Char(d)
    ensures c == d
  {
    var x, y := Utf8Char(c), Utf8Char(d);
    Shifts(c);
    Shifts(d);
    assert x[0] == y[0];
    if |x| > 1 {
      assert x[1] == y[1];
      if |x| > 2 {
        assert x[2] == y[2];
        assert |x| > 3 ==> x[3] == y[3];
      }
    }
  }

  lemma Shifts(c: CodePoint)
    ensures c == 64 * (c / 64) + c % 64
    ensures c / 64 == 64 * (c / 4096) + c / 64 % 64
    ensures c / 4096 == 64 * (c / 262144) + c / 4096 % 64
  {
  }

  /** The first byte gives the length, and the bytes give the code point. */
  lemma Utf8CharIsPrefixFree(c: CodePoint, d: CodePoint, u: seq<Byte>, v: seq<Byte>)
    requires Utf8Char(c) + u == Utf8Char(d) + v
    ensures c == d && u == v
  {
    var x, y := Utf8Char(c), Utf8Char(d);
    assert x[0] == (x + u)[0] && y[0] == (y + v)[0];
    assert x == (x + u)[..|x|] && y == (y + v)[..|y|];
    assert u == (x + u)[|x|..] && v == (y + v)[|y|..];
    Utf8CharIsInjective(c, d);
  }

  lemma {:induction false} Utf8IsInjective(a: Text, b: Text)
    requires Utf8(a) == Utf8(b)
    ensures a == b
  {
    if a != [] && b != [] {
      Utf8CharIsPrefixFree(a[0], b[0], Utf8(a[1..]), Utf8(b[1..]));
      Utf8IsInjective(a[1..], b[1..]);
    }
  }

  lemma {:induction false} Utf8HasNoZero(text: Text)
    requires forall i :: 0 <= i < |text| ==> text[i] != 0
    ensures forall i :: 0 <= i < |Utf8(text)| ==> Utf8(text)[i] != 0
  {
    if text != [] {
      Utf8HasNoZero(text[1..]);
    }
  }

  // ---- Strict decoding of UTF-8 -------------------------------------------

  /** A continuation byte. */
  predicate Tail(b: Byte) { 0x80 <= b <= 0xBF }

  function Low(b: Byte): nat
    requires Tail(b)
  {
    b - 0x80
  }

  /** The character that some bytes begin with and its length, read strictly: section 4 of
      RFC 3629, with its ranges for the lead byte and the byte after it, which exclude
      longer forms than needed, surrogates, and values beyond the last code point. */
  function FirstChar(bytes: seq<Byte>): (r: Option<(CodePoint, nat)>)
    requires bytes != []
    ensures r.Some? ==> 0 < r.value.1 <= |bytes|
  {
    var b, n := bytes[0], |bytes|;
    if b <= 0x7F then Some((b, 1))
    else if 0xC2 <= b <= 0xDF && n >= 2 && Tail(bytes[1]) then
      Some((0x40 * (b as nat - 0xC0) + Low(bytes[1]), 2))
    else if 0xE0 <= b <= 0xEF && n >= 3 && Tail(bytes[1]) && Tail(bytes[2])
            && (b == 0xE0 ==> bytes[1] >= 0xA0) && (b == 0xED ==> bytes[1] <= 0x9F) then
      Some((0x40 * (0x40 * (b as nat - 0xE0) + Low(bytes[1])) + Low(bytes[2]), 3))
    else if 0xF0 <= b <= 0xF4 && n >= 4 && Tail(bytes[1]) && Tail(bytes[2]) && Tail(bytes[3])
            && (b == 0xF0 ==> bytes[1] >= 0x90) && (b == 0xF4 ==> bytes[1] <= 0x8F) then
      Some((0x40 * (0x40 * (0x40 * (b as nat - 0xF0) + Low(bytes[1])) + Low(bytes[2])) + Low(bytes[3]), 4))
    else None
  }

  /** `decode("utf-8", "strict")`. */
  function Decoded(bytes: seq<Byte>): Option<Text>
    decreases |bytes|
  {
    if bytes == [] then Some([])
    else match FirstChar(bytes)
      case None => None
      case Some((c, n)) =>
        match Decoded(bytes[n..])
        case None => None
        case Some(text) => Some([c] + text)
  }

  lemma EncodedCharDecodes(c: CodePoint, rest: seq<Byte>)
    requires !Surrogate(c)
    ensures FirstChar(Utf8Char(c) + rest) == Some((c, |Utf8Char(c)|))
  {
    var bytes := Utf8Char(c) + rest;
    Shifts(c);
    assert forall i :: 0 <= i < |Utf8Char(c)| ==> bytes[i] == Utf8Char(c)[i];
  }

  lemma DecodedCharEncodes(bytes: seq<Byte>)
    requires bytes != [] && FirstChar(bytes).Some?
    ensures var (c, n) := FirstChar(bytes).value; !Surrogate(c) && bytes[..n] == Utf8Char(c)
  {
    var (c, n) := FirstChar(bytes).value;
    if n == 2 {
      TwoBytes(bytes[0], bytes[1]);
    } else if n == 3 {
      ThreeBytes(bytes[0], bytes[1], bytes[2]);
    } else if n == 4 {
      FourBytes(bytes[0], bytes[1], bytes[2], bytes[3]);
    }
  }

  lemma TwoBytes(a: Byte, b: Byte)
    requires 0xC2 <= a <= 0xDF && Tail(b)
    ensures Utf8Char(0x40 * (a as nat - 0xC0) + Low(b)) == [a, b]
  {
    Digits(a - 0xC0, Low(b));
  }

  lemma ThreeBytes(a: Byte, b: Byte, c: Byte)
    requires 0xE0 <= a <= 0xEF && Tail(b) && Tail(c) && (a == 0xE0 ==> b >= 0xA0) && (a == 0xED ==> b <= 0x9F)
    ensures var u := 0x40 * (0x40 * (a as nat - 0xE0) + Low(b)) + Low(c);
      Utf8Char(u) == [a, b, c] && !Surrogate(u)
  {
    var high := 0x40 * (a as nat - 0xE0) + Low(b);
    Digits(a - 0xE0, Low(b));
    Digits(high, Low(c));
    Shifts(0x40 * high + Low(c));
  }

  lemma FourBytes(a: Byte, b: Byte, c: Byte, d: Byte)
    requires 0xF0 <= a <= 0xF4 && Tail(b) && Tail(c) && Tail(d) && (a == 0xF0 ==> b >= 0x90) && (a == 0xF4 ==> b <= 0x8F)
    ensures Utf8Char(0x40 * (0x40 * (0x40 * (a as nat - 0xF0) + Low(b)) + Low(c)) + Low(d)) == [a, b, c, d]
  {
    var upper := 0x40 * (a as nat - 0xF0) + Low(b);
    var high := 0x40 * upper + Low(c);
    Digits(a - 0xF0, Low(b));
    Digits(upper, Low(c));
    Digits(high, Low(d));
    Shifts(0x40 * high + Low(d));
  }

  /** Division by 64 takes off the last six bits. */
  lemma Digits(high: nat, low: nat)
    requires low < 64
    ensures (64 * high + low) / 64 == high && (64 * high + low) % 64 == low
  {
  }

  /** One more character in front of what decodes. */
  lemma DecodesCons(c: CodePoint, bytes: seq<Byte>, rest: Text)
    requires !Surrogate(c) && Decoded(bytes) == Some(rest)
    ensures Decoded(Utf8Char(c) + bytes) == Some([c] + rest)
  {
    EncodedCharDecodes(c, bytes);
    assert (Utf8Char(c) + bytes)[|Utf8Char(c)|..] == bytes;
  }

  lemma {:induction false} Utf8DecodesBack(text: Text)
    requires Scalar(text)
    ensures Decoded(Utf8(text)) == Some(text)
  {
    if text == [] {
      assert Utf8(text) == [];
    } else {
      Utf8DecodesBack(text[1..]);
      DecodesCons(text[0], Utf8(text[1..]), text[1..]);
      assert [text[0]] + text[1..] == text;
    }
  }

  /** What decodes is one character and what decodes after it. */
  lemma DecodedSplit(bytes: seq<Byte>, text: Text) returns (n: nat)
    requires bytes != [] && Decoded(bytes) == Some(text)
    ensures text != [] && !Surrogate(text[0])
    ensures 0 < n <= |bytes| && Decoded(bytes[n..]) == Some(text[1..])
    ensures Utf8(text[1..]) == bytes[n..] ==> Utf8(text) == bytes
  {
    DecodedCharEncodes(bytes);
    n := FirstChar(bytes).value.1;
    assert bytes == bytes[..n] + bytes[n..];
  }

  lemma {:induction false} DecodedIsEncoded(bytes: seq<Byte>, text: Text)
    requires Decoded(bytes) == Some(text)
    ensures Scalar(text) && Utf8(text) == bytes
    decreases |bytes|
  {
    if bytes == [] {
      assert text == [];
    } else {
      var n := DecodedSplit(bytes, text);
      DecodedIsEncoded(bytes[n..], text[1..]);
    }
  }

  /** The strict decoder undoes the encoding and reads nothing else: bytes decode to a text
      if and only if they are its encoding. */
  lemma DecodesExactly(bytes: seq<Byte>, text: Text)
    ensures Decoded(bytes) == Some(text) <==> Scalar(text) && bytes == Utf8(text)
  {
    if Decoded(bytes) == Some(text) {
      DecodedIsEncoded(bytes, text);
    } else if Scalar(text) {
      Utf8DecodesBack(text);
    }
  }

  // ---- UTF-16 -------------------------------------------------------------

  function Utf16(text: Text): seq<nat> {
    if text == [] then []
    else if text[0] < 0x1_0000 then [text[0] as nat] + Utf16(text[1..])
    else [0xD800 + (text[0] - 0x1_0000) / 1024, 0xDC00 + (text[0] - 0x1_0000) % 1024] + Utf16(text[1..])
  }

  lemma {:induction false} Utf16IsInjective(a: Text, b: Text)
    requires Scalar(a) && Scalar(b) && Utf16(a) == Utf16(b)
    ensures a == b
  {
    if a != [] && b != [] {
      assert Utf16(a)[0] == Utf16(b)[0];
      var m := if a[0] < 0x1_0000 then 1 else 2;
      var n := if b[0] < 0x1_0000 then 1 else 2;
      assert m == n;
      assert m == 2 ==> Utf16(a)[1] == Utf16(b)[1];
      assert Utf16(a)[m..] == Utf16(a[1..]) && Utf16(b)[n..] == Utf16(b[1..]);
      Utf16IsInjective(a[1..], b[1..]);
    }
  }

  /** A strict reader of code units (section 2.2 of RFC 2781): a high surrogate and a low
      one after it are one character, and neither stands alone. */
  function Decoded16(units: seq<nat>): Option<Text>
    decreases |units|
  {
    if units == [] then Some([])
    else
      var u := units[0];
      if u < 0xD800 || 0xE000 <= u < 0x1_0000 then
        (match Decoded16(units[1..])
         case None => None
         case Some(text) => Some([u] + text))
      else if 0xD800 <= u <= 0xDBFF && |units| >= 2 && 0xDC00 <= units[1] <= 0xDFFF then
        (match Decoded16(units[2..])
         case None => None
         case Some(text) => Some([0x1_0000 + (u - 0xD800) * 0x400 + (units[1] - 0xDC00)] + text))
      else None
  }

  lemma {:induction false} Utf16DecodesBack(text: Text)
    requires Scalar(text)
    ensures Decoded16(Utf16(text)) == Some(text)
  {
    if text != [] {
      var n := if text[0] < 0x1_0000 then 1 else 2;
      Utf16DecodesBack(text[1..]);
      assert Utf16(text)[n..] == Utf16(text[1..]);
      assert [text[0]] + text[1..] == text;
    }
  }

  // ---- Order --------------------------------------------------------------

  /** Lexicographic order. */
  predicate Before(a: seq<nat>, b: seq<nat>)
    decreases |a|
  {
    b != [] && (a == [] || a[0] < b[0] || (a[0] == b[0] && Before(a[1..], b[1..])))
  }

  lemma {:induction false} BeforeIsTransitive(a: seq<nat>, b: seq<nat>, c: seq<nat>)
    requires Before(a, b) && Before(b, c)
    ensures Before(a, c)
    decreases |a|
  {
    if a != [] && a[0] == b[0] == c[0] {
      BeforeIsTransitive(a[1..], b[1..], c[1..]);
    }
  }

  lemma {:induction false} BeforeIsTotal(a: seq<nat>, b: seq<nat>)
    ensures a == b || Before(a, b) || Before(b, a)
    ensures !(Before(a, b) && Before(b, a))
    decreases |a|
  {
    if a != [] && b != [] && a[0] == b[0] {
      BeforeIsTotal(a[1..], b[1..]);
    }
  }

  /** `encode("utf-16-be")`: every code unit as two bytes, the higher one first. */
  function BigEndian(units: seq<nat>): seq<nat> {
    if units == [] then [] else [units[0] / 256, units[0] % 256] + BigEndian(units[1..])
  }

  /** Ordering the bytes is ordering the code units. */
  lemma {:induction false} BigEndianKeepsOrder(a: seq<nat>, b: seq<nat>)
    ensures Before(BigEndian(a), BigEndian(b)) <==> Before(a, b)
    decreases |a|
  {
    if a != [] && b != [] {
      var x, y := BigEndian(a), BigEndian(b);
      assert x[1..][1..] == BigEndian(a[1..]) && y[1..][1..] == BigEndian(b[1..]);
      assert x[1..][0] == a[0] % 256 && y[1..][0] == b[0] % 256;
      BigEndianKeepsOrder(a[1..], b[1..]);
      assert a[0] == 256 * (a[0] / 256) + a[0] % 256 && b[0] == 256 * (b[0] / 256) + b[0] % 256;
    }
  }
}
