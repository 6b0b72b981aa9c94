/** A strict reader for JSON text without white space, the canonical printer's left
    inverse, and what follows for the bytes that are hashed. */
module JsonParser {
  import opened Unicode
  import opened CanonicalJson

  datatype Parsed<+T> = Fail | Done(value: T, rest: Text)

  predicate Digit(c: CodePoint) { 0x30 <= c <= 0x39 }

  function HexValue(c: CodePoint): int {
    if Digit(c) then c - 0x30 else if 0x61 <= c <= 0x66 then c - 0x61 + 10 else -1
  }

  // ---- The reader ---------------------------------------------------------

  /** The rest of a string after its opening quotation mark. */
  function ParseChars(t: Text): (r: Parsed<Text>)
    ensures r.Done? ==> |r.rest| < |t|
    decreases |t|
  {
    if t == [] || t[0] < 0x20 then Fail
    else if t[0] == QuoteMark then Done([], t[1..])
    else if t[0] != Backslash then Prepend(t[0], ParseChars(t[1..]))
    else if |t| < 2 then Fail
    else if t[1] == 0x75 then
      if |t| >= 6 && t[2] == 0x30 && t[3] == 0x30 && HexValue(t[4]) >= 0 && HexValue(t[5]) >= 0
      then Prepend(16 * HexValue(t[4]) + HexValue(t[5]), ParseChars(t[6..])) else Fail
    else if Unescaped(t[1]) >= 0 then Prepend(Unescaped(t[1]), ParseChars(t[2..]))
    else Fail
  }

  function Prepend(c: CodePoint, r: Parsed<Text>): Parsed<Text> {
    if r.Done? then Done([c] + r.value, r.rest) else Fail
  }

  function Unescaped(c: CodePoint): int {
    if c == QuoteMark || c == Backslash then c
    else if c == 0x62 then 0x08
    else if c == 0x74 then 0x09
    else if c == 0x6E then 0x0A
    else if c == 0x66 then 0x0C
    else if c == 0x72 then 0x0D
    else -1
  }

  function ParseDigits(t: Text, sum: nat): (r: Parsed<nat>)
    ensures r.Done? && |r.rest| <= |t|
    decreases |t|
  {
    if t != [] && Digit(t[0]) then ParseDigits(t[1..], 10 * sum + t[0] - 0x30) else Done(sum, t)
  }

  /** No leading zeros. */
  function ParseNumber(t: Text): (r: Parsed<nat>)
    requires t != [] && Digit(t[0])
    ensures r.Done? && |r.rest| < |t|
  {
    if t[0] == 0x30 then Done(0, t[1..]) else ParseDigits(t[1..], t[0] - 0x30)
  }

  predicate Begins(t: Text, word: Text) {
    |word| <= |t| && t[..|word|] == word
  }

  function ParseValue(t: Text): (r: Parsed<Value>)
    ensures r.Done? ==> |r.rest| < |t|
    decreases |t|, 0
  {
    if t == [] then Fail
    else if t[0] == QuoteMark then
      var text := ParseChars(t[1..]);
      if text.Done? then Done(Str(text.value), text.rest) else Fail
    else if Digit(t[0]) then
      var n := ParseNumber(t);
      Done(Num(n.value), n.rest)
    else if t[0] == OpenArray then
      if |t| > 1 && t[1] == CloseArray then Done(Arr(Nil), t[2..])
      else
        var items := ParseItems(t[1..]);
        if items.Done? then Done(Arr(items.value), items.rest) else Fail
    else if t[0] == OpenObject then
      if |t| > 1 && t[1] == CloseObject then Done(Obj(Nil), t[2..])
      else
        var members := ParseMembers(t[1..]);
        if members.Done? then Done(Obj(members.value), members.rest) else Fail
    else if Begins(t, NullText) then Done(Null, t[4..])
    else if Begins(t, TrueText) then Done(Bool(true), t[4..])
    else if Begins(t, FalseText) then Done(Bool(false), t[5..])
    else Fail
  }

  /** One or more array items and the closing bracket. */
  function ParseItems(t: Text): (r: Parsed<List<Value>>)
    ensures r.Done? ==> |r.rest| < |t|
    decreases |t|, 1
  {
    var item := ParseValue(t);
    if item.Fail? || item.rest == [] then Fail
    else if item.rest[0] == CloseArray then Done(Cons(item.value, Nil), item.rest[1..])
    else if item.rest[0] != Comma then Fail
    else
      var tail := ParseItems(item.rest[1..]);
      if tail.Done? then Done(Cons(item.value, tail.value), tail.rest) else Fail
  }

  /** One or more members and the closing brace; a duplicate name is refused. */
  function ParseMembers(t: Text): (r: Parsed<List<Entry<Value>>>)
    ensures r.Done? ==> |r.rest| < |t|
    decreases |t|, 1
  {
    if t == [] || t[0] != QuoteMark then Fail
    else
      var key := ParseChars(t[1..]);
      if key.Fail? || key.rest == [] || key.rest[0] != Colon then Fail
      else
        var value := ParseValue(key.rest[1..]);
        if value.Fail? || value.rest == [] then Fail
        else if value.rest[0] == CloseObject then Done(Cons(Entry(key.value, value.value), Nil), value.rest[1..])
        else if value.rest[0] != Comma then Fail
        else
          var tail := ParseMembers(value.rest[1..]);
          if tail.Done? && key.value !in Keys(tail.value)
          then Done(Cons(Entry(key.value, value.value), tail.value), tail.rest) else Fail
  }

  // ---- Printing without sorting -------------------------------------------

  /** Prints members in the order they have. */
  function Print(v: Value): Text
    requires Domain(v)
  {
    match v
    case Arr(items) => [OpenArray] + Joined(PrintItems(items)) + [CloseArray]
    case Obj(members) => [OpenObject] + Joined(Pieces(PrintMembers(members))) + [CloseObject]
    case _ => Canonical(v)
  }

  function PrintItems(items: List<Value>): List<Text>
    requires DomainItems(items)
  {
    match items
    case Nil => Nil
    case Cons(item, tail) => Cons(Print(item), PrintItems(tail))
  }

  function PrintMembers(members: List<Entry<Value>>): List<Entry<Text>>
    requires DomainMembers(members)
  {
    match members
    case Nil => Nil
    case Cons(member, tail) => Cons(Entry(member.key, Print(member.value)), PrintMembers(tail))
  }

  // ---- The reader undoes the printer --------------------------------------

  lemma ParsesEscape(c: CodePoint, more: Text, t: Text)
    requires t == Escape(c) + more
    ensures ParseChars(t) == Prepend(c, ParseChars(more))
  {
    assert t[|Escape(c)|..] == more;
    if |Escape(c)| == 6 {
      assert t[4] == HexDigit(c / 16) && t[5] == HexDigit(c % 16);
    }
  }

  lemma {:induction false} ParsesEscaped(text: Text, rest: Text, t: Text)
    requires t == Escaped(text) + ([QuoteMark] + rest)
    ensures ParseChars(t) == Done(text, rest)
    decreases text
  {
    if text == [] {
      assert t[1..] == rest;
    } else {
      var more := Escaped(text[1..]) + ([QuoteMark] + rest);
      assert t == Escape(text[0]) + more;
      ParsesEscape(text[0], more, t);
      ParsesEscaped(text[1..], rest, more);
      assert [text[0]] + text[1..] == text;
    }
  }

  /** A quoted string in front of anything. */
  lemma ParsesQuoted(text: Text, rest: Text, t: Text)
    requires t == Quoted(text) + rest
    ensures t != [] && t[0] == QuoteMark && ParseChars(t[1..]) == Done(text, rest)
  {
    var inner := Escaped(text) + ([QuoteMark] + rest);
    assert t[1..] == inner;
    ParsesEscaped(text, rest, inner);
  }

  predicate Stops(rest: Text) { rest == [] || !Digit(rest[0]) }

  lemma {:induction false} DecimalBegins(n: nat)
    ensures Decimal(n) != [] && Digit(Decimal(n)[0]) && (Decimal(n)[0] == 0x30 <==> n == 0)
  {
    if n >= 10 {
      DecimalBegins(n / 10);
    }
  }

  lemma ParsesDigit(digit: nat, rest: Text, sum: nat)
    requires digit < 10
    ensures ParseDigits([0x30 + digit] + rest, sum) == ParseDigits(rest, 10 * sum + digit)
  {
    assert ([0x30 + digit] + rest)[1..] == rest;
  }

  lemma {:induction false} ParsesDecimal(n: nat, rest: Text)
    ensures ParseDigits(Decimal(n) + rest, 0) == ParseDigits(rest, n)
  {
    if n < 10 {
      ParsesDigit(n, rest, 0);
    } else {
      var last: Text := [0x30 + n % 10];
      ParsesDecimal(n / 10, last + rest);
      assert Decimal(n) + rest == Decimal(n / 10) + (last + rest);
      ParsesDigit(n % 10, rest, n / 10);
    }
  }

  lemma ParsesNumber(n: nat, rest: Text, t: Text)
    requires Stops(rest) && t == Decimal(n) + rest
    ensures t != [] && Digit(t[0]) && ParseNumber(t) == Done(n, rest)
  {
    DecimalBegins(n);
    assert t[0] == Decimal(n)[0];
    if n == 0 {
      assert t[1..] == rest;
    } else {
      ParsesDecimal(n, rest);
    }
  }

  lemma ParsesSimple(v: Value, rest: Text, t: Text)
    requires Domain(v) && !v.Arr? && !v.Obj? && (v.Num? ==> Stops(rest)) && t == Print(v) + rest
    ensures t != [] && t[0] != CloseArray && ParseValue(t) == Done(v, rest)
  {
    if v.Num? {
      ParsesNumber(v.n, rest, t);
    } else if v.Str? {
      ParsesQuoted(v.text, rest, t);
    }
  }

  lemma {:induction false} ParsesValue(v: Value, rest: Text, t: Text)
    requires Domain(v) && (v.Num? ==> Stops(rest)) && t == Print(v) + rest
    ensures t != [] && t[0] != CloseArray && ParseValue(t) == Done(v, rest)
    decreases v, 0
  {
    if v.Arr? {
      ParsesArray(v.items, rest, t);
    } else if v.Obj? {
      ParsesObject(v.members, rest, t);
    } else {
      ParsesSimple(v, rest, t);
    }
  }

  lemma {:induction false} ParsesArray(items: List<Value>, rest: Text, t: Text)
    requires DomainItems(items) && t == [OpenArray] + Joined(PrintItems(items)) + [CloseArray] + rest
    ensures t[0] == OpenArray && ParseValue(t) == Done(Arr(items), rest)
    decreases items, 2
  {
    if items.Nil? {
      assert t == [OpenArray, CloseArray] + rest;
      assert t[2..] == rest;
    } else {
      var inner := Joined(PrintItems(items)) + ([CloseArray] + rest);
      assert t[1..] == inner;
      ParsesItems(items, rest, inner);
      assert t[1] == inner[0];
    }
  }

  lemma {:induction false} ParsesObject(members: List<Entry<Value>>, rest: Text, t: Text)
    requires DomainMembers(members) && t == [OpenObject] + Joined(Pieces(PrintMembers(members))) + [CloseObject] + rest
    ensures t[0] == OpenObject && ParseValue(t) == Done(Obj(members), rest)
    decreases members, 2
  {
    if members.Nil? {
      assert t == [OpenObject, CloseObject] + rest;
      assert t[2..] == rest;
    } else {
      var inner := Joined(Pieces(PrintMembers(members))) + ([CloseObject] + rest);
      assert t[1..] == inner;
      ParsesMembers(members, rest, inner);
      assert t[1] == inner[0];
    }
  }

  lemma {:induction false} ParsesItems(items: List<Value>, rest: Text, t: Text)
    requires DomainItems(items) && items.Cons? && t == Joined(PrintItems(items)) + ([CloseArray] + rest)
    ensures t != [] && t[0] != CloseArray && ParseItems(t) == Done(items, rest)
    decreases items, 1
  {
    if items.tail.Nil? {
      var after := [CloseArray] + rest;
      ParsesValue(items.head, after, t);
      assert after[1..] == rest;
    } else {
      var more := Joined(PrintItems(items.tail)) + ([CloseArray] + rest);
      var after := [Comma] + more;
      assert t == Print(items.head) + after;
      ParsesValue(items.head, after, t);
      ParsesItems(items.tail, rest, more);
      assert after[1..] == more;
    }
  }

  lemma {:induction false} ParsesMembers(members: List<Entry<Value>>, rest: Text, t: Text)
    requires DomainMembers(members) && members.Cons? && t == Joined(Pieces(PrintMembers(members))) + ([CloseObject] + rest)
    ensures t != [] && t[0] == QuoteMark && ParseMembers(t) == Done(members, rest)
    decreases members, 1
  {
    var member := members.head;
    if members.tail.Nil? {
      var after := [CloseObject] + rest;
      var value, colon := ParsesMember(member, after, t);
      assert after[1..] == rest;
    } else {
      var more := Joined(Pieces(PrintMembers(members.tail))) + ([CloseObject] + rest);
      var after := [Comma] + more;
      var value, colon := ParsesMember(member, after, t);
      assert after[1..] == more;
      ParsesMembers(members.tail, rest, more);
    }
  }

  /** One member: its name, the colon and its value. */
  lemma {:induction false} ParsesMember(member: Entry<Value>, after: Text, t: Text) returns (value: Text, colon: Text)
    requires Domain(member.value) && Stops(after) && t == Quoted(member.key) + [Colon] + Print(member.value) + after
    ensures t != [] && t[0] == QuoteMark && ParseChars(t[1..]) == Done(member.key, colon)
    ensures colon != [] && colon[0] == Colon && colon[1..] == value
    ensures ParseValue(value) == Done(member.value, after)
    decreases member, 0
  {
    value := Print(member.value) + after;
    colon := [Colon] + value;
    ParsesQuoted(member.key, colon, t);
    ParsesValue(member.value, after, value);
  }

  // ---- The printer writes the shortest spelling ---------------------------

  lemma EscapeOfLetter(letter: CodePoint)
    requires Unescaped(letter) >= 0
    ensures Escape(Unescaped(letter)) == [Backslash, letter]
  {
  }

  /** The first character of a spelling and the rest of it. */
  lemma FirstSpelling(t: Text, text: Text, rest: Text) returns (n: nat)
    requires ParseChars(t) == Done(text, rest) && t[0] != QuoteMark
    ensures 0 < n <= |t| && text != [] && ParseChars(t[n..]) == Done(text[1..], rest)
    ensures |Escape(text[0])| <= n && (|Escape(text[0])| == n ==> Escape(text[0]) == t[..n])
  {
    n := if t[0] != Backslash then 1 else if t[1] == 0x75 then 6 else 2;
    var more := ParseChars(t[n..]).value;
    if n == 2 {
      EscapeOfLetter(t[1]);
    }
    assert text[1..] == more;
  }

  /** Of all spellings the strict reader accepts for a string, the printed one is the
      shortest, and no other is as short: section 3.2.2.2 of RFC 8785 leaves no choice. */
  lemma {:induction false} ShortestSpelling(t: Text, text: Text, rest: Text)
    requires ParseChars(t) == Done(text, rest)
    ensures |Escaped(text)| + 1 + |rest| <= |t|
    ensures |Escaped(text)| + 1 + |rest| == |t| ==> t == Escaped(text) + ([QuoteMark] + rest)
    decreases |t|
  {
    if t[0] == QuoteMark {
      assert t == [QuoteMark] + t[1..];
    } else {
      var n := FirstSpelling(t, text, rest);
      ShortestSpelling(t[n..], text[1..], rest);
      Joins(t, n, text, rest);
    }
  }

  lemma Joins(t: Text, n: nat, text: Text, rest: Text)
    requires n <= |t| && text != []
    ensures Escape(text[0]) == t[..n] && t[n..] == Escaped(text[1..]) + ([QuoteMark] + rest)
      ==> t == Escaped(text) + ([QuoteMark] + rest)
  {
    assert t == t[..n] + t[n..];
    assert Escape(text[0]) + (Escaped(text[1..]) + ([QuoteMark] + rest)) == Escaped(text) + ([QuoteMark] + rest);
  }

  /** Key order is that of UTF-16 units, not of code points (section 3.2.3 of RFC 8785):
      a character outside the basic plane comes before U+FB33. */
  lemma KeyOrderIsNotCodePointOrder()
    ensures KeyBefore([0x1F600], [0xFB33]) && !Before([0x1F600], [0xFB33])
  {
    assert Utf16([0x1F600])[0] == 0xD83D && Utf16([0xFB33]) == [0xFB33] + Utf16([]);
  }
}
