/** Canonical JSON as the activation scripts print it (RFC 8785, sections 3.2.2.2 and
    3.2.3, on unsigned safe integers): the value domain, the printer, and what it means
    for two values to be equal whatever order their members were inserted in. */
module CanonicalJson {
  import opened Unicode

  const MaxSafeInteger: int := 9_007_199_254_740_991

  datatype List<+T> = Nil | Cons(head: T, tail: List<T>)

  datatype Entry<+T> = Entry(key: Text, value: T)

  /** A dictionary is its members in insertion order. `Unsupported` is any other value. */
  datatype Value =
    | Null
    | Bool(b: bool)
    | Num(n: int)
    | Str(text: Text)
    | Arr(items: List<Value>)
    | Obj(members: List<Entry<Value>>)
    | Unsupported

  // ---- The domain ---------------------------------------------------------

  function Keys<T>(entries: List<Entry<T>>): set<Text> {
    match entries
    case Nil => {}
    case Cons(entry, tail) => {entry.key} + Keys(tail)
  }

  /** `validate_json_domain`, for dictionaries, whose keys are distinct. */
  predicate Domain(v: Value) {
    match v
    case Null | Bool(_) => true
    case Num(n) => 0 <= n <= MaxSafeInteger
    case Str(text) => Scalar(text)
    case Arr(items) => DomainItems(items)
    case Obj(members) => DomainMembers(members)
    case Unsupported => false
  }

  predicate DomainItems(items: List<Value>) {
    items.Cons? ==> Domain(items.head) && DomainItems(items.tail)
  }

  predicate DomainMembers(members: List<Entry<Value>>) {
    members.Cons? ==>
      && Scalar(members.head.key) && members.head.key !in Keys(members.tail)
      && Domain(members.head.value) && DomainMembers(members.tail)
  }

  // ---- Pieces of text -----------------------------------------------------

  const QuoteMark: CodePoint := 0x22
  const Backslash: CodePoint := 0x5C
  const Comma: CodePoint := 0x2C
  const Colon: CodePoint := 0x3A
  const OpenArray: CodePoint := 0x5B
  const CloseArray: CodePoint := 0x5D
  const OpenObject: CodePoint := 0x7B
  const CloseObject: CodePoint := 0x7D
  const NullText: Text := [0x6E, 0x75, 0x6C, 0x6C]
  const TrueText: Text := [0x74, 0x72, 0x75, 0x65]
  const FalseText: Text := [0x66, 0x61, 0x6C, 0x73, 0x65]

  function HexDigit(d: nat): CodePoint
    requires d < 16
  {
    if d < 10 then 0x30 + d else 0x61 + d - 10
  }

  function Escape(c: CodePoint): Text {
    if c == QuoteMark || c == Backslash then [Backslash, c]
    else if c == 0x08 then [Backslash, 0x62]
    else if c == 0x09 then [Backslash, 0x74]
    else if c == 0x0A then [Backslash, 0x6E]
    else if c == 0x0C then [Backslash, 0x66]
    else if c == 0x0D then [Backslash, 0x72]
    else if c < 0x20 then [Backslash, 0x75, 0x30, 0x30, HexDigit(c / 16), HexDigit(c % 16)]
    else [c]
  }

  function Escaped(text: Text): Text {
    if text == [] then [] else Escape(text[0]) + Escaped(text[1..])
  }

  function Quoted(text: Text): Text {
    [QuoteMark] + Escaped(text) + [QuoteMark]
  }

  function Decimal(n: nat): Text {
    if n < 10 then [0x30 + n] else Decimal(n / 10) + [0x30 + n % 10]
  }

  function Joined(pieces: List<Text>): Text {
    match pieces
    case Nil => []
    case Cons(piece, tail) => if tail.Nil? then piece else piece + [Comma] + Joined(tail)
  }

  function Pieces(entries: List<Entry<Text>>): List<Text> {
    match entries
    case Nil => Nil
    case Cons(entry, tail) => Cons(Quoted(entry.key) + [Colon] + entry.value, Pieces(tail))
  }

  /** The names, marks and digits are those of JSON (RFC 8259, sections 2, 3 and 6), and the
      numbers end where every integer has an exact double. */
  lemma SpelledAsInJson()
    ensures NullText == Literal("null") && TrueText == Literal("true") && FalseText == Literal("false")
    ensures [OpenArray, CloseArray, OpenObject, CloseObject, Comma, Colon] == Literal("[]{},:")
    ensures forall n: nat :: n < 10 ==> Decimal(n) == [Literal("0123456789")[n]]
    ensures forall n: int :: Domain(Num(n)) <==> 0 <= n < 0x20_0000_0000_0000
  {
  }

  /** The two escapes everyone must use, the five that have a letter, the rest in lower-case
      hexadecimal, and no other character is escaped: section 7 of RFC 8259. */
  lemma EscapedAsInJson()
    ensures Escape(0x22) == Literal("\\\"") && Escape(0x5C) == Literal("\\\\")
    ensures Escape(8) == Literal("\\b") && Escape(9) == Literal("\\t") && Escape(10) == Literal("\\n")
    ensures Escape(12) == Literal("\\f") && Escape(13) == Literal("\\r")
    ensures Escape(0) == Literal("\\u0000") && Escape(0x1F) == Literal("\\u001f")
    ensures forall c: CodePoint :: c >= 0x20 && c != 0x22 && c != 0x5C ==> Escape(c) == [c]
    ensures Quoted([]) == Literal("\"\"")
  {
  }

  // ---- Sorting by UTF-16 code units ---------------------------------------

  predicate KeyBefore(a: Text, b: Text) { Before(Utf16(a), Utf16(b)) }

  function Insert<T>(entry: Entry<T>, entries: List<Entry<T>>): List<Entry<T>> {
    match entries
    case Nil => Cons(entry, Nil)
    case Cons(first, tail) =>
      if KeyBefore(entry.key, first.key) then Cons(entry, entries) else Cons(first, Insert(entry, tail))
  }

  function Sort<T>(entries: List<Entry<T>>): List<Entry<T>> {
    match entries
    case Nil => Nil
    case Cons(entry, tail) => Insert(entry, Sort(tail))
  }

  // ---- The printer --------------------------------------------------------

  /** `canonical_json` before the encoding to bytes. */
  function Canonical(v: Value): Text
    requires Domain(v)
  {
    match v
    case Null => NullText
    case Bool(b) => if b then TrueText else FalseText
    case Num(n) => Decimal(n)
    case Str(text) => Quoted(text)
    case Arr(items) => [OpenArray] + Joined(CanonicalItems(items)) + [CloseArray]
    case Obj(members) => [OpenObject] + Joined(Pieces(Sort(CanonicalMembers(members)))) + [CloseObject]
  }

  function CanonicalItems(items: List<Value>): List<Text>
    requires DomainItems(items)
  {
    match items
    case Nil => Nil
    case Cons(item, tail) => Cons(Canonical(item), CanonicalItems(tail))
  }

  function CanonicalMembers(members: List<Entry<Value>>): List<Entry<Text>>
    requires DomainMembers(members)
  {
    match members
    case Nil => Nil
    case Cons(member, tail) => Cons(Entry(member.key, Canonical(member.value)), CanonicalMembers(tail))
  }

  // ---- Equality of values -------------------------------------------------

  /** Equality of JSON values: dictionaries by their members, in whatever order. */
  predicate Equal(v: Value, w: Value) {
    match v
    case Arr(items) => w.Arr? && EqualItems(items, w.items)
    case Obj(members) => w.Obj? && Keys(members) == Keys(w.members) && EqualMembers(members, w.members)
    case _ => v == w
  }

  predicate EqualItems(items: List<Value>, others: List<Value>) {
    match items
    case Nil => others.Nil?
    case Cons(item, tail) => others.Cons? && Equal(item, others.head) && EqualItems(tail, others.tail)
  }

  /** Every member has an equal one under its key in the other dictionary. */
  predicate EqualMembers(members: List<Entry<Value>>, others: List<Entry<Value>>) {
    match members
    case Nil => true
    case Cons(member, tail) =>
      && member.key in Keys(others) && Equal(member.value, Lookup(others, member.key))
      && EqualMembers(tail, others)
  }

  function Lookup<T>(entries: List<Entry<T>>, key: Text): T
    requires key in Keys(entries)
  {
    if entries.head.key == key then entries.head.value else Lookup(entries.tail, key)
  }

  // ---- The sorted form ----------------------------------------------------

  /** The same value with the members of every dictionary in key order. */
  function Normalized(v: Value): Value {
    match v
    case Arr(items) => Arr(NormalizedItems(items))
    case Obj(members) => Obj(Sort(NormalizedMembers(members)))
    case _ => v
  }

  function NormalizedItems(items: List<Value>): List<Value> {
    match items
    case Nil => Nil
    case Cons(item, tail) => Cons(Normalized(item), NormalizedItems(tail))
  }

  function NormalizedMembers(members: List<Entry<Value>>): List<Entry<Value>> {
    match members
    case Nil => Nil
    case Cons(member, tail) => Cons(Entry(member.key, Normalized(member.value)), NormalizedMembers(tail))
  }

  /** Members in key order, no key twice. */
  predicate Ordered<T>(entries: List<Entry<T>>) {
    entries.Cons? && entries.tail.Cons? ==> KeyBefore(entries.head.key, entries.tail.head.key) && Ordered(entries.tail)
  }

  predicate ScalarKeys<T>(entries: List<Entry<T>>) {
    forall key :: key in Keys(entries) ==> Scalar(key)
  }

  predicate DistinctKeys<T>(entries: List<Entry<T>>) {
    entries.Cons? ==> entries.head.key !in Keys(entries.tail) && DistinctKeys(entries.tail)
  }

  lemma {:induction false} InsertKeys<T>(entry: Entry<T>, entries: List<Entry<T>>)
    ensures Keys(Insert(entry, entries)) == {entry.key} + Keys(entries)
  {
    if entries.Cons? {
      InsertKeys(entry, entries.tail);
    }
  }

  lemma {:induction false} SortKeys<T>(entries: List<Entry<T>>)
    ensures Keys(Sort(entries)) == Keys(entries)
  {
    if entries.Cons? {
      SortKeys(entries.tail);
      InsertKeys(entries.head, Sort(entries.tail));
    }
  }

  lemma {:induction false} OrderedMeansDistinct<T>(entries: List<Entry<T>>, key: Text)
    requires Ordered(entries) && entries.Cons? && KeyBefore(key, entries.head.key)
    ensures forall other :: other in Keys(entries) ==> KeyBefore(key, other)
    ensures key !in Keys(entries)
  {
    BeforeIsTotal(Utf16(key), Utf16(entries.head.key));
    if entries.tail.Cons? {
      BeforeIsTransitive(Utf16(key), Utf16(entries.head.key), Utf16(entries.tail.head.key));
      OrderedMeansDistinct(entries.tail, key);
    }
  }

  lemma {:induction false} InsertOrders<T>(entry: Entry<T>, entries: List<Entry<T>>)
    requires Ordered(entries) && entry.key !in Keys(entries) && Scalar(entry.key) && ScalarKeys(entries)
    ensures Ordered(Insert(entry, entries))
  {
    if entries.Cons? && !KeyBefore(entry.key, entries.head.key) {
      BeforeIsTotal(Utf16(entry.key), Utf16(entries.head.key));
      if Utf16(entry.key) == Utf16(entries.head.key) {
        Utf16IsInjective(entry.key, entries.head.key);
      }
      InsertOrders(entry, entries.tail);
    }
  }

  lemma {:induction false} SortOrders<T>(entries: List<Entry<T>>)
    requires DistinctKeys(entries) && ScalarKeys(entries)
    ensures Ordered(Sort(entries)) && ScalarKeys(Sort(entries))
  {
    if entries.Cons? {
      SortOrders(entries.tail);
      SortKeys(entries.tail);
      InsertOrders(entries.head, Sort(entries.tail));
      InsertKeys(entries.head, Sort(entries.tail));
    }
  }

  lemma {:induction false} InsertLookup<T>(entry: Entry<T>, entries: List<Entry<T>>, key: Text)
    requires entry.key !in Keys(entries) && (key == entry.key || key in Keys(entries))
    ensures key in Keys(Insert(entry, entries))
    ensures Lookup(Insert(entry, entries), key) == if key == entry.key then entry.value else Lookup(entries, key)
  {
    InsertKeys(entry, entries);
    if entries.Cons? && !KeyBefore(entry.key, entries.head.key) && key != entries.head.key {
      InsertLookup(entry, entries.tail, key);
    }
  }

  lemma {:induction false} SortLookup<T>(entries: List<Entry<T>>, key: Text)
    requires DistinctKeys(entries) && key in Keys(entries)
    ensures key in Keys(Sort(entries)) && Lookup(Sort(entries), key) == Lookup(entries, key)
  {
    SortKeys(entries.tail);
    InsertLookup(entries.head, Sort(entries.tail), key);
    if key != entries.head.key {
      SortLookup(entries.tail, key);
    }
  }

  /** An ordered list is determined by its keys and what they look up. */
  lemma {:induction false} OrderedIsUnique<T>(a: List<Entry<T>>, b: List<Entry<T>>)
    requires Ordered(a) && Ordered(b) && Keys(a) == Keys(b)
    requires forall key :: key in Keys(a) ==> Lookup(a, key) == Lookup(b, key)
    ensures a == b
  {
    if a.Cons? {
      assert a.head.key in Keys(b);
      assert b.Cons? && b.head.key in Keys(a);
      HeadIsFirst(a, b.head.key);
      HeadIsFirst(b, a.head.key);
      BeforeIsTotal(Utf16(a.head.key), Utf16(b.head.key));
      assert a.head.key == b.head.key;
      assert Lookup(a, a.head.key) == Lookup(b, a.head.key);
      TailKeys(a);
      TailKeys(b);
      forall key | key in Keys(a.tail) ensures Lookup(a.tail, key) == Lookup(b.tail, key) {
        assert Lookup(a, key) == Lookup(b, key);
      }
      OrderedIsUnique(a.tail, b.tail);
    } else {
    }
  }

  lemma HeadIsFirst<T>(entries: List<Entry<T>>, key: Text)
    requires Ordered(entries) && key in Keys(entries)
    ensures key == entries.head.key || KeyBefore(entries.head.key, key)
  {
    if entries.tail.Cons? {
      OrderedMeansDistinct(entries.tail, entries.head.key);
    }
  }

  lemma TailKeys<T>(entries: List<Entry<T>>)
    requires Ordered(entries) && entries.Cons?
    ensures entries.head.key !in Keys(entries.tail) && Keys(entries.tail) == Keys(entries) - {entries.head.key}
  {
    if entries.tail.Cons? {
      OrderedMeansDistinct(entries.tail, entries.head.key);
    }
  }

  // ---- Equal values have the same sorted form -----------------------------

  lemma {:induction false} NormalizedKeys(members: List<Entry<Value>>)
    requires DomainMembers(members)
    ensures Keys(NormalizedMembers(members)) == Keys(members)
    ensures DistinctKeys(NormalizedMembers(members)) && ScalarKeys(NormalizedMembers(members))
  {
    if members.Cons? {
      NormalizedKeys(members.tail);
    }
  }

  lemma {:induction false} NormalizedLookup(members: List<Entry<Value>>, key: Text)
    requires DomainMembers(members) && key in Keys(members)
    ensures key in Keys(NormalizedMembers(members))
    ensures Lookup(NormalizedMembers(members), key) == Normalized(Lookup(members, key))
    ensures Domain(Lookup(members, key))
  {
    NormalizedKeys(members);
    if key != members.head.key {
      NormalizedLookup(members.tail, key);
    }
  }

  /** What the members of a sorted dictionary are, key by key. */
  lemma SortedLookup(members: List<Entry<Value>>, key: Text)
    requires DomainMembers(members) && key in Keys(members)
    ensures var sorted := Sort(NormalizedMembers(members));
            key in Keys(sorted) && Lookup(sorted, key) == Normalized(Lookup(members, key))
  {
    NormalizedKeys(members);
    NormalizedLookup(members, key);
    SortLookup(NormalizedMembers(members), key);
  }

  lemma SortedKeys(members: List<Entry<Value>>)
    requires DomainMembers(members)
    ensures var sorted := Sort(NormalizedMembers(members)); Keys(sorted) == Keys(members) && Ordered(sorted)
  {
    NormalizedKeys(members);
    SortKeys(NormalizedMembers(members));
    SortOrders(NormalizedMembers(members));
  }

  lemma {:induction false} EqualNormalizes(v: Value, w: Value)
    requires Domain(v) && Domain(w)
    ensures Equal(v, w) <==> Normalized(v) == Normalized(w)
    decreases v
  {
    if v.Arr? && w.Arr? {
      EqualItemsNormalize(v.items, w.items);
    } else if v.Obj? && w.Obj? {
      EqualObjectsNormalize(v.members, w.members);
    }
  }

  lemma {:induction false} EqualItemsNormalize(items: List<Value>, others: List<Value>)
    requires DomainItems(items) && DomainItems(others)
    ensures EqualItems(items, others) <==> NormalizedItems(items) == NormalizedItems(others)
    decreases items
  {
    if items.Cons? && others.Cons? {
      EqualNormalizes(items.head, others.head);
      EqualItemsNormalize(items.tail, others.tail);
    }
  }

  lemma {:induction false} EqualMembersNormalize(members: List<Entry<Value>>, others: List<Entry<Value>>)
    requires DomainMembers(members) && DomainMembers(others) && Keys(members) <= Keys(others)
    ensures EqualMembers(members, others) <==>
            forall key :: key in Keys(members) ==> Normalized(Lookup(members, key)) == Normalized(Lookup(others, key))
    decreases members, 0
  {
    if members.Cons? {
      NormalizedLookup(others, members.head.key);
      EqualNormalizes(members.head.value, Lookup(others, members.head.key));
      EqualMembersNormalize(members.tail, others);
      assert Lookup(members, members.head.key) == members.head.value;
      assert forall key :: key in Keys(members.tail) ==> Lookup(members, key) == Lookup(members.tail, key);
    }
  }

  lemma {:induction false} EqualObjectsNormalize(members: List<Entry<Value>>, others: List<Entry<Value>>)
    requires DomainMembers(members) && DomainMembers(others)
    ensures Keys(members) == Keys(others) && EqualMembers(members, others)
            <==> Sort(NormalizedMembers(members)) == Sort(NormalizedMembers(others))
    decreases members, 1
  {
    var a, b := Sort(NormalizedMembers(members)), Sort(NormalizedMembers(others));
    SortedKeys(members);
    SortedKeys(others);
    if Keys(members) == Keys(others) {
      EqualMembersNormalize(members, others);
      forall key | key in Keys(members)
        ensures Lookup(a, key) == Normalized(Lookup(members, key)) && Lookup(b, key) == Normalized(Lookup(others, key))
      {
        SortedLookup(members, key);
        SortedLookup(others, key);
      }
      if EqualMembers(members, others) {
        OrderedIsUnique(a, b);
      }
    }
  }
}
