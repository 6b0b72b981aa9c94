/** The bytes that the activation scripts hash: what they determine, and how the domains
    put in front keep the kinds of hashed documents apart. */
module CanonicalBytes {
  import opened Wrappers
  import opened Unicode
  import opened CanonicalJson
  import opened JsonParser

  /** `canonical_json`: refuses a value outside the domain. */
  function Encoded(v: Value): Option<seq<Byte>> {
    if Domain(v) then Some(Utf8(Canonical(v))) else None
  }

  // ---- Canonical text is the sorted form, printed -------------------------

  lemma {:induction false} InsertInDomain(entry: Entry<Value>, members: List<Entry<Value>>)
    requires DomainMembers(members) && Scalar(entry.key) && entry.key !in Keys(members) && Domain(entry.value)
    ensures DomainMembers(Insert(entry, members))
    ensures PrintMembers(Insert(entry, members)) == Insert(Entry(entry.key, Print(entry.value)), PrintMembers(members))
  {
    if members.Cons? && !KeyBefore(entry.key, members.head.key) {
      InsertKeys(entry, members.tail);
      InsertInDomain(entry, members.tail);
    }
  }

  lemma {:induction false} SortInDomain(members: List<Entry<Value>>)
    requires DomainMembers(members)
    ensures DomainMembers(Sort(members))
    ensures PrintMembers(Sort(members)) == Sort(PrintMembers(members))
  {
    if members.Cons? {
      SortKeys(members.tail);
      SortInDomain(members.tail);
      InsertInDomain(members.head, Sort(members.tail));
    }
  }

  lemma {:induction false} CanonicalIsSortedPrint(v: Value)
    requires Domain(v)
    ensures Domain(Normalized(v)) && Canonical(v) == Print(Normalized(v))
    decreases v
  {
    if v.Arr? {
      ItemsAreSortedPrint(v.items);
    } else if v.Obj? {
      MembersAreSortedPrint(v.members);
      SortInDomain(NormalizedMembers(v.members));
    }
  }

  lemma {:induction false} ItemsAreSortedPrint(items: List<Value>)
    requires DomainItems(items)
    ensures DomainItems(NormalizedItems(items)) && CanonicalItems(items) == PrintItems(NormalizedItems(items))
    decreases items
  {
    if items.Cons? {
      CanonicalIsSortedPrint(items.head);
      ItemsAreSortedPrint(items.tail);
    }
  }

  lemma {:induction false} MembersAreSortedPrint(members: List<Entry<Value>>)
    requires DomainMembers(members)
    ensures DomainMembers(NormalizedMembers(members))
    ensures CanonicalMembers(members) == PrintMembers(NormalizedMembers(members))
    decreases members
  {
    if members.Cons? {
      NormalizedKeys(members);
      CanonicalIsSortedPrint(members.head.value);
      MembersAreSortedPrint(members.tail);
    }
  }

  // ---- The bytes are UTF-8 ------------------------------------------------

  lemma {:induction false} EscapedIsScalar(text: Text)
    requires Scalar(text)
    ensures Scalar(Escaped(text))
  {
    if text != [] {
      EscapedIsScalar(text[1..]);
    }
  }

  lemma {:induction false} DecimalIsScalar(n: nat)
    ensures Scalar(Decimal(n))
  {
    if n >= 10 {
      DecimalIsScalar(n / 10);
    }
  }

  lemma {:induction false} PrintIsScalar(v: Value)
    requires Domain(v)
    ensures Scalar(Print(v))
    decreases v
  {
    match v
    case Null =>
    case Bool(b) =>
    case Num(n) => DecimalIsScalar(n);
    case Str(text) => EscapedIsScalar(text);
    case Arr(items) => ItemsAreScalar(items);
    case Obj(members) => MembersAreScalar(members);
  }

  lemma {:induction false} ItemsAreScalar(items: List<Value>)
    requires DomainItems(items)
    ensures Scalar(Joined(PrintItems(items)))
    decreases items
  {
    if items.Cons? {
      PrintIsScalar(items.head);
      ItemsAreScalar(items.tail);
    }
  }

  lemma {:induction false} MembersAreScalar(members: List<Entry<Value>>)
    requires DomainMembers(members)
    ensures Scalar(Joined(Pieces(PrintMembers(members))))
    decreases members
  {
    if members.Cons? {
      EscapedIsScalar(members.head.key);
      PrintIsScalar(members.head.value);
      MembersAreScalar(members.tail);
    }
  }

  /** `load_strict` on a file without white space: strict UTF-8, then the strict reader,
      then nothing. */
  function Loaded(bytes: seq<Byte>): Option<Value> {
    match Decoded(bytes)
    case None => None
    case Some(text) =>
      match ParseValue(text)
      case Fail => None
      case Done(v, rest) => if rest == [] then Some(v) else None
  }

  /** What is written can be read: a value has bytes exactly if it is in the domain, they
      are strict UTF-8 of its canonical text, and reading them gives the value back with
      its dictionaries in key order. */
  lemma BytesRoundTrip(v: Value)
    ensures Encoded(v).Some? <==> Domain(v)
    ensures Domain(v) ==> Decoded(Encoded(v).value) == Some(Canonical(v))
    ensures Domain(v) ==> Loaded(Encoded(v).value) == Some(Normalized(v)) && Equal(v, Normalized(v))
  {
    if Domain(v) {
      CanonicalIsSortedPrint(v);
      PrintIsScalar(Normalized(v));
      Utf8DecodesBack(Canonical(v));
      CanonicalRoundTrip(v);
    }
  }

  // ---- What canonical text determines -------------------------------------

  /** The strict reader gives back the value, its dictionaries in key order. */
  lemma CanonicalRoundTrip(v: Value)
    requires Domain(v)
    ensures ParseValue(Canonical(v)) == Done(Normalized(v), [])
    ensures Equal(v, Normalized(v))
  {
    CanonicalIsSortedPrint(v);
    assert Canonical(v) == Print(Normalized(v)) + [];
    ParsesValue(Normalized(v), [], Canonical(v));
    NormalizedIsStable(v);
    EqualNormalizes(v, Normalized(v));
  }

  /** Sorting is idempotent at every depth. */
  lemma {:induction false} NormalizedIsStable(v: Value)
    requires Domain(v)
    ensures Normalized(Normalized(v)) == Normalized(v)
    decreases v
  {
    if v.Arr? {
      ItemsAreStable(v.items);
    } else if v.Obj? {
      var sorted := Sort(NormalizedMembers(v.members));
      MembersAreStable(v.members);
      SortedKeys(v.members);
      SortStable(NormalizedMembers(v.members));
      OrderedSorts(sorted);
    }
  }

  lemma {:induction false} ItemsAreStable(items: List<Value>)
    requires DomainItems(items)
    ensures NormalizedItems(NormalizedItems(items)) == NormalizedItems(items)
    decreases items
  {
    if items.Cons? {
      NormalizedIsStable(items.head);
      ItemsAreStable(items.tail);
    }
  }

  predicate Stable(members: List<Entry<Value>>) {
    NormalizedMembers(members) == members
  }

  lemma {:induction false} MembersAreStable(members: List<Entry<Value>>)
    requires DomainMembers(members)
    ensures Stable(NormalizedMembers(members))
    decreases members
  {
    if members.Cons? {
      NormalizedIsStable(members.head.value);
      MembersAreStable(members.tail);
    }
  }

  lemma {:induction false} InsertStable(entry: Entry<Value>, members: List<Entry<Value>>)
    requires Stable(members) && Normalized(entry.value) == entry.value
    ensures Stable(Insert(entry, members))
  {
    if members.Cons? {
      InsertStable(entry, members.tail);
    }
  }

  lemma {:induction false} SortStable(members: List<Entry<Value>>)
    requires Stable(members)
    ensures Stable(Sort(members))
  {
    if members.Cons? {
      SortStable(members.tail);
      InsertStable(members.head, Sort(members.tail));
    }
  }

  lemma {:induction false} OrderedSorts<T>(entries: List<Entry<T>>)
    requires Ordered(entries)
    ensures Sort(entries) == entries
  {
    if entries.Cons? {
      OrderedSorts(entries.tail);
    }
  }

  /** Two values have the same canonical text, and the same bytes, exactly when they are
      equal, whatever the insertion orders; so the bytes determine the value. */
  lemma CanonicalExactlyWhenEqual(v: Value, w: Value)
    requires Domain(v) && Domain(w)
    ensures Canonical(v) == Canonical(w) <==> Equal(v, w)
    ensures Encoded(v) == Encoded(w) <==> Equal(v, w)
  {
    EqualNormalizes(v, w);
    CanonicalIsSortedPrint(v);
    CanonicalIsSortedPrint(w);
    if Encoded(v) == Encoded(w) {
      Utf8IsInjective(Canonical(v), Canonical(w));
    }
    if Canonical(v) == Canonical(w) {
      CanonicalRoundTrip(v);
      CanonicalRoundTrip(w);
    }
  }

  // ---- Domain separation --------------------------------------------------

  predicate NoZero(text: seq<nat>) {
    forall i :: 0 <= i < |text| ==> text[i] != 0
  }

  lemma {:induction false} EscapedHasNoZero(text: Text)
    ensures NoZero(Escaped(text))
  {
    if text != [] {
      EscapedHasNoZero(text[1..]);
    }
  }

  lemma {:induction false} DecimalHasNoZero(n: nat)
    ensures NoZero(Decimal(n))
  {
    if n >= 10 {
      DecimalHasNoZero(n / 10);
    }
  }

  lemma {:induction false} PrintHasNoZero(v: Value)
    requires Domain(v)
    ensures NoZero(Print(v))
    decreases v
  {
    match v
    case Null =>
    case Bool(b) =>
    case Num(n) => DecimalHasNoZero(n);
    case Str(text) => EscapedHasNoZero(text);
    case Arr(items) => ItemsHaveNoZero(items);
    case Obj(members) => MembersHaveNoZero(members);
  }

  lemma {:induction false} ItemsHaveNoZero(items: List<Value>)
    requires DomainItems(items)
    ensures NoZero(Joined(PrintItems(items)))
    decreases items
  {
    if items.Cons? {
      PrintHasNoZero(items.head);
      ItemsHaveNoZero(items.tail);
    }
  }

  lemma {:induction false} MembersHaveNoZero(members: List<Entry<Value>>)
    requires DomainMembers(members)
    ensures NoZero(Joined(Pieces(PrintMembers(members))))
    decreases members
  {
    if members.Cons? {
      EscapedHasNoZero(members.head.key);
      PrintHasNoZero(members.head.value);
      MembersHaveNoZero(members.tail);
    }
  }

  lemma CanonicalHasNoZero(v: Value)
    requires Domain(v)
    ensures NoZero(Canonical(v)) && NoZero(Utf8(Canonical(v)))
  {
    CanonicalIsSortedPrint(v);
    PrintHasNoZero(Normalized(v));
    Utf8HasNoZero(Canonical(v));
  }

  /** A domain: some bytes without zero, then one zero. */
  predicate DomainTag(tag: seq<Byte>) {
    tag != [] && tag[|tag| - 1] == 0 && NoZero(tag[..|tag| - 1])
  }

  /** What is hashed: the domain of the document's kind, then its canonical bytes. */
  function Preimage(tag: seq<Byte>, v: Value): seq<Byte>
    requires Domain(v)
  {
    tag + Utf8(Canonical(v))
  }

  /** Two hashed documents coincide exactly when they are of one kind and equal: the first
      zero byte of the preimage is the end of its domain. */
  lemma PreimagesDetermineKindAndValue(tag: seq<Byte>, v: Value, other: seq<Byte>, w: Value)
    requires DomainTag(tag) && DomainTag(other) && Domain(v) && Domain(w)
    ensures Preimage(tag, v) == Preimage(other, w) <==> tag == other && Equal(v, w)
  {
    CanonicalExactlyWhenEqual(v, w);
    if Preimage(tag, v) == Preimage(other, w) {
      CanonicalHasNoZero(v);
      CanonicalHasNoZero(w);
      var p, x, y := Preimage(tag, v), Utf8(Canonical(v)), Utf8(Canonical(w));
      OnlyZero(tag, x, |other| - 1);
      assert p[|other| - 1] == other[|other| - 1];
      assert |tag| == |other|;
      assert tag == p[..|tag|] && other == p[..|tag|];
      assert x == p[|tag|..] && y == p[|tag|..];
    }
  }

  lemma OnlyZero(tag: seq<Byte>, x: seq<Byte>, i: nat)
    requires DomainTag(tag) && NoZero(x) && i < |tag + x|
    ensures (tag + x)[i] == 0 <==> i == |tag| - 1
  {
    if i < |tag| - 1 {
      assert tag[..|tag| - 1][i] == tag[i];
    } else if |tag| <= i {
      assert (tag + x)[i] == x[i - |tag|];
    }
  }

  function Tag(name: string): (tag: seq<Byte>)
    requires forall i :: 0 <= i < |name| ==> 0 < name[i] as int < 128
    ensures DomainTag(tag)
  {
    seq(|name|, i requires 0 <= i < |name| => name[i] as Byte) + [0]
  }

  const ContractTag: string := "TOHSENO-CONTRACT-ACTIVATION-V1"
  const ClaimsTag: string := "TOHSENO-CLAIMS-ACTIVATION-V1"

  /** A claims activation and a contract activation are never hashed from the same bytes. */
  lemma ActivationKindsNeverCoincide(v: Value, w: Value)
    requires Domain(v) && Domain(w)
    ensures Preimage(Tag(ContractTag), v) != Preimage(Tag(ClaimsTag), w)
  {
    assert |Tag(ContractTag)| != |Tag(ClaimsTag)|;
    PreimagesDetermineKindAndValue(Tag(ContractTag), v, Tag(ClaimsTag), w);
  }
}
