/** Checksum manifests of release trees: the scan, the printed manifest, the parser and
    the verification. The digest is a parameter that writes 64 lower-case hex digits. */
module ChecksumManifest {
  import opened Wrappers
  import opened Unicode

  type Bytes = seq<Byte>

  datatype Named<+T> = Named(name: Bytes, value: T)

  datatype Kind = Directory | Regular(contents: Bytes) | Unsupported

  type Node = Named<Kind>

  /** A file's digest, as text. */
  type Entry = Named<Bytes>

  const Newline: Byte := 0x0A
  const Space: Byte := 0x20
  const Slash: Byte := 0x2F
  const Dot: Byte := 0x2E
  const DigestLength: nat := 64

  // ---- Names --------------------------------------------------------------

  predicate SafeByte(b: Byte) {
    0x30 <= b <= 0x39 || 0x41 <= b <= 0x5A || 0x61 <= b <= 0x7A || b == 0x2E || b == 0x5F || b == 0x2F || b == 0x2D
  }

  function Components(name: Bytes): seq<Bytes> {
    if name == [] then [[]]
    else
      var tail := Components(name[1..]);
      if name[0] == Slash || tail == [] then [[]] + tail else [[name[0]] + tail[0]] + tail[1..]
  }

  /** `validate_relative_name`, of a path that drops empty and `.` components first. */
  predicate SafeName(name: Bytes) {
    && name != [] && name[0] != Slash
    && (forall i :: 0 <= i < |name| ==> SafeByte(name[i]))
    && [Dot, Dot] !in Components(name)
    && exists i :: 0 <= i < |Components(name)| && !(Components(name)[i] in {[], [Dot]})
  }

  predicate NoSlash(part: Bytes) { Slash !in part }

  /** A path written out. */
  function PathOf(parts: seq<Bytes>): Bytes
    requires parts != []
  {
    if |parts| == 1 then parts[0] else parts[0] + [Slash] + PathOf(parts[1..])
  }

  /** Splitting is the inverse of writing out, both ways. */
  lemma {:induction false} ComponentsAreParts(parts: seq<Bytes>)
    requires parts != [] && forall i :: 0 <= i < |parts| ==> NoSlash(parts[i])
    ensures Components(PathOf(parts)) == parts
    decreases |parts|, |parts[0]|
  {
    var name := PathOf(parts);
    if parts[0] == [] {
      if |parts| > 1 {
        ComponentsAreParts(parts[1..]);
        assert name[1..] == PathOf(parts[1..]);
        assert [[]] + parts[1..] == parts;
      } else {
        assert parts == [[]];
      }
    } else {
      var rest := [parts[0][1..]] + parts[1..];
      assert rest[1..] == parts[1..] && name[1..] == PathOf(rest) && parts[0][0] in parts[0];
      ComponentsAreParts(rest);
      assert name[0] == parts[0][0] && [name[0]] + rest[0] == parts[0];
      assert [parts[0]] + parts[1..] == parts;
    }
  }

  lemma PathOfEmpty(parts: seq<Bytes>)
    requires parts != []
    ensures PathOf([[]] + parts) == [Slash] + PathOf(parts)
  {
    assert ([[]] + parts)[1..] == parts;
  }

  lemma PathOfLonger(b: Byte, parts: seq<Bytes>)
    requires parts != []
    ensures PathOf([[b] + parts[0]] + parts[1..]) == [b] + PathOf(parts)
  {
    var longer := [[b] + parts[0]] + parts[1..];
    assert longer[1..] == parts[1..];
    if |parts| > 1 {
      assert [b] + parts[0] + [Slash] + PathOf(parts[1..]) == [b] + (parts[0] + [Slash] + PathOf(parts[1..]));
    }
  }

  lemma {:induction false} PathOfComponents(name: Bytes)
    ensures Components(name) != [] && PathOf(Components(name)) == name
    ensures forall i :: 0 <= i < |Components(name)| ==> NoSlash(Components(name)[i])
  {
    if name == [] {
      assert Components(name) == [[]];
    } else {
      var tail := Components(name[1..]);
      PathOfComponents(name[1..]);
      assert name == [name[0]] + name[1..];
      if name[0] == Slash {
        PathOfEmpty(tail);
      } else {
        PathOfLonger(name[0], tail);
      }
    }
  }

  /** A letter, a digit, a dot, an underscore, a hyphen or a slash. */
  predicate PlainByte(b: Byte) {
    || 'a' as int <= b <= 'z' as int || 'A' as int <= b <= 'Z' as int || '0' as int <= b <= '9' as int
    || b == '.' as int || b == '_' as int || b == '-' as int || b == '/' as int
  }

  const Here: Bytes := Literal(".")
  const Up: Bytes := Literal("..")

  lemma Dots()
    ensures Here == [Dot] && Up == [Dot, Dot]
  {
  }

  /** A path is safe exactly if it is relative, goes up nowhere, names something, and has
      only plain characters. */
  lemma SafeExactly(parts: seq<Bytes>)
    requires parts != [] && forall i :: 0 <= i < |parts| ==> NoSlash(parts[i])
    ensures SafeName(PathOf(parts)) <==>
      && parts[0] != [] && Up !in parts
      && (exists i :: 0 <= i < |parts| && parts[i] != [] && parts[i] != Here)
      && (forall i :: 0 <= i < |PathOf(parts)| ==> PlainByte(PathOf(parts)[i]))
  {
    var name := PathOf(parts);
    Dots();
    ComponentsAreParts(parts);
    if parts[0] == [] {
      assert name == [] || name[0] == Slash;
    } else {
      assert name[0] == parts[0][0] && parts[0][0] in parts[0];
    }
  }

  // ---- Sorting by name ----------------------------------------------------

  predicate Distinct<T>(items: seq<Named<T>>) {
    forall i, j :: 0 <= i < j < |items| ==> items[i].name != items[j].name
  }

  predicate Ascending<T>(items: seq<Named<T>>) {
    forall i, j :: 0 <= i < j < |items| ==> Before(items[i].name, items[j].name)
  }

  function Insert<T>(item: Named<T>, items: seq<Named<T>>): seq<Named<T>> {
    if items == [] || Before(item.name, items[0].name) then [item] + items
    else [items[0]] + Insert(item, items[1..])
  }

  function Sort<T>(items: seq<Named<T>>): seq<Named<T>> {
    if items == [] then [] else Insert(items[0], Sort(items[1..]))
  }

  lemma {:induction false} InsertAscends<T(!new)>(item: Named<T>, items: seq<Named<T>>)
    requires Ascending(items) && forall i :: 0 <= i < |items| ==> items[i].name != item.name
    ensures Ascending(Insert(item, items)) && |Insert(item, items)| == |items| + 1
    ensures forall x :: x in Insert(item, items) <==> x == item || x in items
  {
    if items != [] {
      BeforeIsTotal(item.name, items[0].name);
      if Before(item.name, items[0].name) {
        forall j | 0 < j < |items| ensures Before(item.name, items[j].name) {
          BeforeIsTransitive(item.name, items[0].name, items[j].name);
        }
      } else {
        var rest := Insert(item, items[1..]);
        InsertAscends(item, items[1..]);
        assert forall x :: x in items <==> x == items[0] || x in items[1..];
        assert items[0].name != item.name;
        assert forall x :: x in items[1..] ==> Before(items[0].name, x.name);
        forall j | 0 <= j < |rest| ensures Before(items[0].name, rest[j].name) {
          assert rest[j] in rest;
        }
      }
    }
  }

  lemma {:induction false} SortAscends<T(!new)>(items: seq<Named<T>>)
    requires Distinct(items)
    ensures Ascending(Sort(items)) && |Sort(items)| == |items|
    ensures forall x :: x in Sort(items) <==> x in items
  {
    if items != [] {
      SortAscends(items[1..]);
      var rest := Sort(items[1..]);
      forall i | 0 <= i < |rest| ensures rest[i].name != items[0].name {
        assert rest[i] in rest && rest[i] in items[1..];
      }
      InsertAscends(items[0], Sort(items[1..]));
      assert forall x :: x in items <==> x == items[0] || x in items[1..];
    }
  }

  /** Sorting changes nothing exactly where everything is in order already. */
  lemma {:induction false} SortKeepsExactly<T(!new)>(items: seq<Named<T>>)
    requires Distinct(items)
    ensures Sort(items) == items <==> Ascending(items)
  {
    SortAscends(items);
    if Ascending(items) && items != [] {
      var rest := items[1..];
      SortKeepsExactly(rest);
      assert Ascending(rest) && Sort(items) == Insert(items[0], rest);
      if |items| > 1 {
        assert rest[0] == items[1] && Before(items[0].name, items[1].name);
      }
      assert [items[0]] + rest == items;
    }
  }

  function Names<T(==)>(items: seq<Named<T>>): set<Bytes> {
    set x | x in items :: x.name
  }

  // ---- The scan -----------------------------------------------------------

  predicate Scannable(tree: seq<Node>) {
    forall i :: 0 <= i < |tree| ==> SafeName(tree[i].name) && !tree[i].value.Unsupported?
  }

  function Scanned(tree: seq<Node>): Option<seq<Node>> {
    if Scannable(tree) then Some(Sort(tree)) else None
  }

  /** `scan_tree`, over the nodes in the order of the walk. */
  method ScanTree(tree: seq<Node>) returns (entries: Option<seq<Node>>)
    ensures entries == Scanned(tree)
  {
    var found: seq<Node> := [];
    for i := 0 to |tree|
      invariant found == tree[..i]
      invariant Scannable(tree[..i])
    {
      if tree[i].value.Unsupported? || !SafeName(tree[i].name) {
        return None;
      }
      found := found + [tree[i]];
    }
    assert tree[..|tree|] == tree;
    return Some(Sort(found));
  }

  // ---- The manifest -------------------------------------------------------

  predicate HexByte(b: Byte) { 0x30 <= b <= 0x39 || 0x61 <= b <= 0x66 }

  predicate DigestText(text: Bytes) {
    |text| == DigestLength && forall i :: 0 <= i < |text| ==> HexByte(text[i])
  }

  ghost predicate Digests(digest: Bytes -> Bytes) {
    forall contents :: DigestText(digest(contents))
  }

  /** The regular files other than the manifest, with their digests. */
  function Entries(digest: Bytes -> Bytes, nodes: seq<Node>, manifest: Bytes): seq<Entry> {
    if nodes == [] then []
    else
      (if nodes[0].value.Regular? && nodes[0].name != manifest
       then [Named(nodes[0].name, digest(nodes[0].value.contents))] else [])
      + Entries(digest, nodes[1..], manifest)
  }

  function Line(entry: Entry): Bytes { entry.value + [Space, Space] + entry.name }

  function Text(entries: seq<Entry>): Bytes {
    if entries == [] then [] else Line(entries[0]) + [Newline] + Text(entries[1..])
  }

  /** The tree with this file in it, in place of one of the same name. */
  function Replaced(tree: seq<Node>, name: Bytes, contents: Bytes): seq<Node> {
    if tree == [] then [Named(name, Regular(contents))]
    else if tree[0].name == name then [Named(name, Regular(contents))] + tree[1..]
    else [tree[0]] + Replaced(tree[1..], name, contents)
  }

  /** The loop that prints one line for each file. */
  method ManifestText(digest: Bytes -> Bytes, nodes: seq<Node>, manifest: Bytes) returns (text: Bytes)
    requires Scannable(nodes)
    ensures text == Text(Entries(digest, nodes, manifest))
  {
    text := [];
    assert nodes[0..] == nodes;
    for i := 0 to |nodes|
      invariant text + Text(Entries(digest, nodes[i..], manifest)) == Text(Entries(digest, nodes, manifest))
    {
      ghost var later := Text(Entries(digest, nodes[i + 1..], manifest));
      TextStep(digest, nodes, i, manifest);
      if !nodes[i].value.Directory? && nodes[i].name != manifest {
        ghost var before := text;
        var line := Line(Named(nodes[i].name, digest(nodes[i].value.contents))) + [Newline];
        text := text + line;
        assert before + (line + later) == text + later;
      }
    }
    assert nodes[|nodes|..] == [];
  }

  lemma TextStep(digest: Bytes -> Bytes, nodes: seq<Node>, i: nat, manifest: Bytes)
    requires i < |nodes|
    ensures var later := Text(Entries(digest, nodes[i + 1..], manifest));
      Text(Entries(digest, nodes[i..], manifest)) ==
        if nodes[i].value.Regular? && nodes[i].name != manifest
        then Line(Named(nodes[i].name, digest(nodes[i].value.contents))) + [Newline] + later else later
  {
    var rest := nodes[i..];
    assert rest[0] == nodes[i] && rest[1..] == nodes[i + 1..];
    var entries := Entries(digest, rest, manifest);
    if nodes[i].value.Regular? && nodes[i].name != manifest {
      assert entries[1..] == Entries(digest, rest[1..], manifest);
    } else {
      assert entries == Entries(digest, rest[1..], manifest);
    }
  }

  /** `write_checksum_manifest`; a directory in the manifest's place is not replaced. */
  method WriteManifest(digest: Bytes -> Bytes, tree: seq<Node>, manifest: Bytes) returns (after: Option<seq<Node>>)
    requires Distinct(tree)
    ensures after == ManifestWritten(digest, tree, manifest)
  {
    var entries := ScanTree(tree);
    if entries.None? {
      return None;
    }
    SortAscends(tree);
    forall i | 0 <= i < |entries.value| ensures SafeName(entries.value[i].name) && !entries.value[i].value.Unsupported? {
      assert entries.value[i] in tree;
    }
    var text := ManifestText(digest, entries.value, manifest);
    if Named(manifest, Directory) in tree {
      return None;
    }
    return Some(Replaced(tree, manifest, text));
  }

  function ManifestWritten(digest: Bytes -> Bytes, tree: seq<Node>, manifest: Bytes): Option<seq<Node>> {
    if !Scannable(tree) || Named(manifest, Directory) in tree then None
    else Some(Replaced(tree, manifest, Text(Entries(digest, Sort(tree), manifest))))
  }

  // ---- The parser ---------------------------------------------------------

  /** The line breaks of `splitlines` among the ASCII bytes. */
  predicate LineBreak(b: Byte) { 0x0A <= b <= 0x0D || 0x1C <= b <= 0x1E }

  /** The position of the first line break, or the end. */
  function LineEnd(text: Bytes): (end: nat)
    ensures end <= |text|
  {
    if text == [] || LineBreak(text[0]) then 0 else 1 + LineEnd(text[1..])
  }

  function SplitLines(text: Bytes): (lines: seq<Bytes>)
    ensures text != [] ==> lines != []
    decreases |text|
  {
    if text == [] then []
    else
      var end := LineEnd(text);
      if end == |text| then [text]
      else if text[end] == 0x0D && end + 1 < |text| && text[end + 1] == 0x0A then [text[..end]] + SplitLines(text[end + 2..])
      else [text[..end]] + SplitLines(text[end + 1..])
  }

  /** The first line break ends the first line; a carriage return and the line feed after
      it are one break. */
  lemma SplitsAtBreak(line: Bytes, mark: Bytes, rest: Bytes)
    requires forall i :: 0 <= i < |line| ==> !LineBreak(line[i])
    requires mark == [0x0D, 0x0A] || (|mark| == 1 && LineBreak(mark[0]) && !(mark[0] == 0x0D && rest != [] && rest[0] == 0x0A))
    ensures SplitLines(line + mark + rest) == [line] + SplitLines(rest)
  {
    var text := line + mark + rest;
    LineEndIs(line, mark + rest);
    assert text == line + (mark + rest);
    assert text[..|line|] == line && text[|line| + |mark|..] == rest;
  }

  lemma {:induction false} LineEndIs(line: Bytes, after: Bytes)
    requires forall i :: 0 <= i < |line| ==> !LineBreak(line[i])
    requires after != [] && LineBreak(after[0])
    ensures LineEnd(line + after) == |line|
  {
    if line == [] {
      assert line + after == after;
    } else {
      assert (line + after)[1..] == line[1..] + after;
      LineEndIs(line[1..], after);
    }
  }

  /** The marks, the line breaks and the digits of a digest, spelt out. */
  lemma SpelledAsInAscii(b: Byte)
    ensures Newline == '\n' as int && Space == ' ' as int && Slash == '/' as int && Dot == '.' as int
    ensures |Line(Named([Slash], seq(64, i => Dot)))| == 67 && DigestLength == 64
    ensures LineBreak(b) <==> b in {0x0A, 0x0B, 0x0C, 0x0D, 0x1C, 0x1D, 0x1E}
    ensures HexByte(b) <==> '0' as int <= b <= '9' as int || 'a' as int <= b <= 'f' as int
  {
  }

  function ReadLine(line: Bytes, manifest: Bytes): Option<Entry> {
    if |line| < 67 || line[64..66] != [Space, Space] then None
    else
      var entry := Named(line[66..], line[..64]);
      if DigestText(entry.value) && entry.name != manifest && SafeName(entry.name) then Some(entry) else None
  }

  function ReadLines(lines: seq<Bytes>, manifest: Bytes): Option<seq<Entry>> {
    if lines == [] then Some([])
    else match ReadLine(lines[0], manifest)
      case None => None
      case Some(entry) =>
        match ReadLines(lines[1..], manifest)
        case None => None
        case Some(entries) => Some([entry] + entries)
  }

  predicate WholeAsciiLines(text: Bytes) {
    text != [] && text[|text| - 1] == Newline && forall i :: 0 <= i < |text| ==> text[i] < 0x80
  }

  /** What `parse_checksum_manifest` reads: entries in strictly ascending order. */
  function Parsed(text: Bytes, manifest: Bytes): Option<seq<Entry>> {
    if !WholeAsciiLines(text) || SplitLines(text) == [] then None
    else match ReadLines(SplitLines(text), manifest)
      case None => None
      case Some(entries) => if Ascending(entries) then Some(entries) else None
  }

  /** The parser's loop over lines, with its dictionary of names seen. */
  method ReadEntries(lines: seq<Bytes>, manifest: Bytes) returns (entries: Option<seq<Entry>>)
    ensures entries.Some? ==> ReadLines(lines, manifest) == entries && Distinct(entries.value)
    ensures entries.None? && ReadLines(lines, manifest).Some? ==> !Ascending(ReadLines(lines, manifest).value)
  {
    var expected: seq<Entry> := [];
    var names: set<Bytes> := {};
    assert lines[0..] == lines;
    PrefixedNothing(ReadLines(lines, manifest));
    for i := 0 to |lines|
      invariant ReadLines(lines, manifest) == Prefixed(expected, ReadLines(lines[i..], manifest))
      invariant names == Names(expected) && Distinct(expected)
    {
      var entry := ReadLine(lines[i], manifest);
      ghost var later := ReadLines(lines[i + 1..], manifest);
      ReadsNext(expected, lines, i, manifest);
      if entry.None? {
        return None;
      }
      if entry.value.name in names {
        NotAscending(expected, entry.value, later);
        return None;
      }
      names := names + {entry.value.name};
      expected := expected + [entry.value];
    }
    assert lines[|lines|..] == [] && expected + [] == expected;
    return Some(expected);
  }

  /** Moving one line from the rest to what was read. */
  lemma ReadsNext(expected: seq<Entry>, lines: seq<Bytes>, i: nat, manifest: Bytes)
    requires i < |lines|
    ensures var entry := ReadLine(lines[i], manifest);
      var later := ReadLines(lines[i + 1..], manifest);
      Prefixed(expected, ReadLines(lines[i..], manifest))
        == (if entry.Some? then Prefixed(expected + [entry.value], later) else None)
  {
    assert lines[i..][0] == lines[i] && lines[i..][1..] == lines[i + 1..];
    var entry, later := ReadLine(lines[i], manifest), ReadLines(lines[i + 1..], manifest);
    if entry.Some? && later.Some? {
      assert expected + ([entry.value] + later.value) == expected + [entry.value] + later.value;
    }
  }

  lemma PrefixedNothing(rest: Option<seq<Entry>>)
    ensures Prefixed([], rest) == rest
  {
    if rest.Some? {
      assert [] + rest.value == rest.value;
    }
  }

  /** `parse_checksum_manifest`: the names read must be the names sorted. */
  method ParseManifest(text: Bytes, manifest: Bytes) returns (entries: Option<seq<Entry>>)
    ensures entries == Parsed(text, manifest)
  {
    if !WholeAsciiLines(text) {
      return None;
    }
    var lines := SplitLines(text);
    if lines == [] {
      return None;
    }
    entries := ReadEntries(lines, manifest);
    if entries.None? {
      return None;
    }
    SortKeepsExactly(entries.value);
    return if Sort(entries.value) == entries.value then entries else None;
  }

  function Prefixed(first: seq<Entry>, rest: Option<seq<Entry>>): Option<seq<Entry>> {
    if rest.Some? then Some(first + rest.value) else None
  }

  lemma NotAscending(entries: seq<Entry>, again: Entry, rest: Option<seq<Entry>>)
    requires again.name in Names(entries)
    ensures rest.Some? ==> !Ascending(entries + [again] + rest.value)
  {
    if rest.Some? {
      var j :| 0 <= j < |entries| && entries[j].name == again.name;
      var all := entries + [again] + rest.value;
      assert all[j].name == all[|entries|].name;
      BeforeIsTotal(all[j].name, all[j].name);
    }
  }

  // ---- Printing and parsing -----------------------------------------------

  predicate Printable(entry: Entry, manifest: Bytes) {
    DigestText(entry.value) && SafeName(entry.name) && entry.name != manifest
  }

  lemma ReadsLine(entry: Entry, manifest: Bytes)
    requires Printable(entry, manifest)
    ensures ReadLine(Line(entry), manifest) == Some(entry)
    ensures forall i :: 0 <= i < |Line(entry)| ==> !LineBreak(Line(entry)[i]) && Line(entry)[i] < 0x80
  {
    var line := Line(entry);
    assert line[..64] == entry.value && line[64..66] == [Space, Space] && line[66..] == entry.name;
  }

  lemma {:induction false} TextIsLines(entries: seq<Entry>, manifest: Bytes)
    requires forall i :: 0 <= i < |entries| ==> Printable(entries[i], manifest)
    ensures forall i :: 0 <= i < |Text(entries)| ==> Text(entries)[i] < 0x80
    ensures entries != [] ==> Text(entries) != [] && Text(entries)[|Text(entries)| - 1] == Newline
  {
    if entries != [] {
      ReadsLine(entries[0], manifest);
      TextIsLines(entries[1..], manifest);
    }
  }

  lemma ReadsOneMore(entry: Entry, rest: Bytes, entries: seq<Entry>, manifest: Bytes)
    requires Printable(entry, manifest) && ReadLines(SplitLines(rest), manifest) == Some(entries)
    ensures ReadLines(SplitLines(Line(entry) + [Newline] + rest), manifest) == Some([entry] + entries)
  {
    ReadsLine(entry, manifest);
    SplitsAtBreak(Line(entry), [Newline], rest);
    ReadsFirst(Line(entry), SplitLines(rest), manifest);
  }

  lemma {:induction false} ReadsText(entries: seq<Entry>, manifest: Bytes)
    requires forall i :: 0 <= i < |entries| ==> Printable(entries[i], manifest)
    ensures ReadLines(SplitLines(Text(entries)), manifest) == Some(entries)
  {
    if entries == [] {
      assert SplitLines(Text(entries)) == [];
    } else {
      ReadsText(entries[1..], manifest);
      ReadsOneMore(entries[0], Text(entries[1..]), entries[1..], manifest);
      assert [entries[0]] + entries[1..] == entries;
    }
  }

  lemma ReadsFirst(line: Bytes, lines: seq<Bytes>, manifest: Bytes)
    requires ReadLine(line, manifest).Some? && ReadLines(lines, manifest).Some?
    ensures ReadLines([line] + lines, manifest) == Some([ReadLine(line, manifest).value] + ReadLines(lines, manifest).value)
  {
    assert ([line] + lines)[1..] == lines;
  }

  /** A printed manifest parses to its entries, unless there are none: the empty text is
      refused. */
  lemma ManifestRoundTrip(entries: seq<Entry>, manifest: Bytes)
    requires Ascending(entries) && forall i :: 0 <= i < |entries| ==> Printable(entries[i], manifest)
    ensures Parsed(Text(entries), manifest) == if entries == [] then None else Some(entries)
  {
    TextIsLines(entries, manifest);
    ReadsText(entries, manifest);
  }

  // ---- Verification -------------------------------------------------------

  /** The file at a path, if it is a regular one. */
  function FileAt(tree: seq<Node>, name: Bytes): Option<Bytes> {
    if tree == [] then None
    else if tree[0].name == name then (if tree[0].value.Regular? then Some(tree[0].value.contents) else None)
    else FileAt(tree[1..], name)
  }

  function FileNames(tree: seq<Node>, manifest: Bytes): set<Bytes> {
    set x | x in tree && x.value.Regular? && x.name != manifest :: x.name
  }

  /** What `verify_checksum_manifest` accepts. */
  predicate Verified(digest: Bytes -> Bytes, tree: seq<Node>, manifest: Bytes) {
    && Scannable(tree)
    && match FileAt(tree, manifest)
       case None => false
       case Some(text) =>
         match Parsed(text, manifest)
         case None => false
         case Some(entries) =>
           && Names(entries) == FileNames(tree, manifest)
           && forall i :: 0 <= i < |entries| ==> Matches(digest, tree, entries[i])
  }

  predicate Matches(digest: Bytes -> Bytes, tree: seq<Node>, entry: Entry) {
    match FileAt(tree, entry.name)
    case None => false
    case Some(contents) => digest(contents) == entry.value
  }

  method VerifyManifest(digest: Bytes -> Bytes, tree: seq<Node>, manifest: Bytes) returns (ok: bool)
    requires Distinct(tree)
    ensures ok <==> Verified(digest, tree, manifest)
  {
    var scanned := ScanTree(tree);
    if scanned.None? {
      return false;
    }
    var file := FileAt(tree, manifest);
    if file.None? {
      return false;
    }
    var entries := ParseManifest(file.value, manifest);
    if entries.None? {
      return false;
    }
    var observed: set<Bytes> := {};
    for i := 0 to |tree|
      invariant observed == FileNames(tree[..i], manifest)
    {
      assert tree[..i + 1] == tree[..i] + [tree[i]];
      if tree[i].value.Regular? && tree[i].name != manifest {
        observed := observed + {tree[i].name};
      }
    }
    assert tree[..|tree|] == tree;
    if Names(entries.value) != observed {
      return false;
    }
    for i := 0 to |entries.value|
      invariant forall j :: 0 <= j < i ==> Matches(digest, tree, entries.value[j])
    {
      if !Matches(digest, tree, entries.value[i]) {
        return false;
      }
    }
    return true;
  }

  /** The entry belongs to some regular file other than the manifest. */
  ghost predicate OfFile(digest: Bytes -> Bytes, tree: seq<Node>, manifest: Bytes, entry: Entry) {
    exists x :: x in tree && x.value.Regular? && x.name != manifest && entry == Named(x.name, digest(x.value.contents))
  }

  lemma {:induction false} EntriesAreOfFiles(digest: Bytes -> Bytes, nodes: seq<Node>, manifest: Bytes)
    ensures forall e :: e in Entries(digest, nodes, manifest) <==> OfFile(digest, nodes, manifest, e)
  {
    if nodes != [] {
      EntriesAreOfFiles(digest, nodes[1..], manifest);
      assert nodes == [nodes[0]] + nodes[1..];
      assert forall x :: x in nodes <==> x == nodes[0] || x in nodes[1..];
    }
  }

  lemma {:induction false} EntriesAscend(digest: Bytes -> Bytes, nodes: seq<Node>, manifest: Bytes)
    requires Ascending(nodes)
    ensures Ascending(Entries(digest, nodes, manifest))
  {
    if nodes != [] {
      var rest := Entries(digest, nodes[1..], manifest);
      EntriesAscend(digest, nodes[1..], manifest);
      EntriesAreOfFiles(digest, nodes[1..], manifest);
      forall j | 0 <= j < |rest| ensures Before(nodes[0].name, rest[j].name) {
        assert rest[j] in rest;
        assert OfFile(digest, nodes[1..], manifest, rest[j]);
      }
    }
  }

  lemma {:induction false} AscendingIsUnique(a: seq<Entry>, b: seq<Entry>)
    requires Ascending(a) && Ascending(b) && forall e :: e in a <==> e in b
    ensures a == b
  {
    if a == [] {
      NothingIn(b);
    } else {
      assert a[0] in b;
      assert b[0] in a;
      FirstIsLeast(a, b[0]);
      FirstIsLeast(b, a[0]);
      BeforeIsTotal(a[0].name, b[0].name);
      assert a[0] == b[0];
      TailMembers(a);
      TailMembers(b);
      AscendingIsUnique(a[1..], b[1..]);
    }
  }

  lemma NothingIn(b: seq<Entry>)
    ensures (forall e :: e !in b) ==> b == []
  {
    if b != [] {
      assert b[0] in b;
    }
  }

  lemma FirstIsLeast(a: seq<Entry>, e: Entry)
    requires Ascending(a) && e in a
    ensures e == a[0] || Before(a[0].name, e.name)
  {
  }

  lemma TailMembers(a: seq<Entry>)
    requires Ascending(a) && a != []
    ensures forall e :: e in a[1..] <==> e in a && e != a[0]
  {
    forall e | e in a[1..] ensures e != a[0] {
      BeforeIsTotal(a[0].name, e.name);
    }
    assert a == [a[0]] + a[1..];
  }

  lemma {:induction false} FileAtIs(tree: seq<Node>, x: Node)
    requires Distinct(tree) && x in tree
    ensures FileAt(tree, x.name) == if x.value.Regular? then Some(x.value.contents) else None
  {
    if x != tree[0] {
      FileAtIs(tree[1..], x);
    }
  }

  lemma {:induction false} FileAtFinds(tree: seq<Node>, name: Bytes)
    requires FileAt(tree, name).Some?
    ensures Named(name, Regular(FileAt(tree, name).value)) in tree
  {
    if tree[0].name != name {
      FileAtFinds(tree[1..], name);
    }
  }

  /** What the manifest of a tree should say. */
  function Expected(digest: Bytes -> Bytes, tree: seq<Node>, manifest: Bytes): seq<Entry> {
    Entries(digest, Sort(tree), manifest)
  }

  lemma ExpectedEntries(digest: Bytes -> Bytes, tree: seq<Node>, manifest: Bytes)
    requires Distinct(tree)
    ensures Ascending(Expected(digest, tree, manifest))
    ensures forall e :: e in Expected(digest, tree, manifest) <==> OfFile(digest, tree, manifest, e)
  {
    SortAscends(tree);
    EntriesAscend(digest, Sort(tree), manifest);
    EntriesAreOfFiles(digest, Sort(tree), manifest);
    forall e ensures OfFile(digest, Sort(tree), manifest, e) <==> OfFile(digest, tree, manifest, e) {
    }
  }

  /** The names and digests agree with the tree exactly when the entries are its files'. */
  lemma MatchesMeansOfFile(digest: Bytes -> Bytes, tree: seq<Node>, manifest: Bytes, entries: seq<Entry>)
    requires Distinct(tree)
    requires Names(entries) == FileNames(tree, manifest)
    requires forall i :: 0 <= i < |entries| ==> Matches(digest, tree, entries[i])
    ensures forall e :: e in entries <==> OfFile(digest, tree, manifest, e)
  {
    forall e | e in entries ensures OfFile(digest, tree, manifest, e) {
      FileAtFinds(tree, e.name);
      assert e.name in FileNames(tree, manifest);
      var x := Named(e.name, Regular(FileAt(tree, e.name).value));
      assert x in tree && x.value.Regular?;
    }
    forall e | OfFile(digest, tree, manifest, e) ensures e in entries {
      var x :| x in tree && x.value.Regular? && x.name != manifest && e == Named(x.name, digest(x.value.contents));
      assert x.name in Names(entries);
      var y :| y in entries && y.name == x.name;
      FileAtIs(tree, x);
    }
  }

  lemma OfFileMatches(digest: Bytes -> Bytes, tree: seq<Node>, manifest: Bytes, entries: seq<Entry>)
    requires Distinct(tree)
    requires forall e :: e in entries <==> OfFile(digest, tree, manifest, e)
    ensures Names(entries) == FileNames(tree, manifest)
    ensures forall i :: 0 <= i < |entries| ==> Matches(digest, tree, entries[i])
  {
    forall e | e in entries ensures Matches(digest, tree, e) && e.name in FileNames(tree, manifest) {
      var x :| x in tree && x.value.Regular? && x.name != manifest && e == Named(x.name, digest(x.value.contents));
      FileAtIs(tree, x);
    }
    forall name | name in FileNames(tree, manifest) ensures name in Names(entries) {
      var x :| x in tree && x.value.Regular? && x.name != manifest && x.name == name;
      assert OfFile(digest, tree, manifest, Named(x.name, digest(x.value.contents)));
      assert Named(x.name, digest(x.value.contents)) in entries;
    }
  }

  /** Verification accepts exactly when the tree scans, the manifest is one of its regular
      files, and what it parses to is the digests of all the others. */
  lemma VerifiesExactly(digest: Bytes -> Bytes, tree: seq<Node>, manifest: Bytes)
    requires Distinct(tree)
    ensures Verified(digest, tree, manifest) <==>
      && Scannable(tree) && FileAt(tree, manifest).Some?
      && Parsed(FileAt(tree, manifest).value, manifest) == Some(Expected(digest, tree, manifest))
  {
    ExpectedEntries(digest, tree, manifest);
    if Scannable(tree) && FileAt(tree, manifest).Some? && Parsed(FileAt(tree, manifest).value, manifest).Some? {
      var entries := Parsed(FileAt(tree, manifest).value, manifest).value;
      if Verified(digest, tree, manifest) {
        MatchesMeansOfFile(digest, tree, manifest, entries);
        AscendingIsUnique(entries, Expected(digest, tree, manifest));
      }
      if entries == Expected(digest, tree, manifest) {
        OfFileMatches(digest, tree, manifest, entries);
      }
    }
  }

  lemma {:induction false} ReplacedMembers(tree: seq<Node>, name: Bytes, contents: Bytes)
    requires Distinct(tree)
    ensures Distinct(Replaced(tree, name, contents))
    ensures forall x :: x in Replaced(tree, name, contents) <==>
              x == Named(name, Regular(contents)) || (x in tree && x.name != name)
  {
    if tree != [] {
      assert tree == [tree[0]] + tree[1..];
      if tree[0].name != name {
        ReplacedMembers(tree[1..], name, contents);
        var rest := Replaced(tree[1..], name, contents);
        forall j | 0 <= j < |rest| ensures rest[j].name != tree[0].name {
          assert rest[j] in rest;
        }
      }
    }
  }

  /** A freshly written manifest verifies exactly when there is a regular file besides it. */
  lemma FreshManifestVerifies(digest: Bytes -> Bytes, tree: seq<Node>, manifest: Bytes)
    requires Distinct(tree) && Digests(digest) && SafeName(manifest)
    requires ManifestWritten(digest, tree, manifest).Some?
    ensures Verified(digest, ManifestWritten(digest, tree, manifest).value, manifest)
            <==> exists x :: x in tree && x.value.Regular? && x.name != manifest
  {
    var entries := Expected(digest, tree, manifest);
    var after := ManifestWritten(digest, tree, manifest).value;
    ReplacedMembers(tree, manifest, Text(entries));
    ExpectedEntries(digest, tree, manifest);
    ExpectedEntries(digest, after, manifest);
    AscendingIsUnique(entries, Expected(digest, after, manifest));
    FileAtIs(after, Named(manifest, Regular(Text(entries))));
    forall i | 0 <= i < |after| ensures SafeName(after[i].name) && !after[i].value.Unsupported? {
      assert after[i] in after;
    }
    forall i | 0 <= i < |entries| ensures Printable(entries[i], manifest) {
      assert entries[i] in entries;
    }
    ManifestRoundTrip(entries, manifest);
    VerifiesExactly(digest, after, manifest);
    SomeFile(digest, tree, manifest, entries);
  }

  lemma SomeFile(digest: Bytes -> Bytes, tree: seq<Node>, manifest: Bytes, entries: seq<Entry>)
    requires forall e :: e in entries <==> OfFile(digest, tree, manifest, e)
    ensures entries != [] <==> exists x :: x in tree && x.value.Regular? && x.name != manifest
  {
    if entries != [] {
      assert entries[0] in entries;
    }
    forall x | x in tree && x.value.Regular? && x.name != manifest ensures entries != [] {
      assert OfFile(digest, tree, manifest, Named(x.name, digest(x.value.contents)));
    }
  }
}
