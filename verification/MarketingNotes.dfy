/** Marketing notes: a command that crashes and is retried at any step, by callers with
    their own clocks, publishes one file by hard link. */
module MarketingNotes {
  import opened Wrappers
  import opened Unicode
  import opened CanonicalJson
  import opened CanonicalBytes

  const MaximumNoteBytes: nat := 100_000
  const MaximumRecordBytes: nat := MaximumNoteBytes + 16 * 1024

  /** What every retry of one command must submit again. The Shot and the note have
      identifiers; the note's is derived from the command's. */
  datatype Content = Content(note: Text, shot: Text, body: Text, device: Option<Text>, signature: Option<Text>)

  /** The journal's record of the first admission. */
  datatype Admission = Admission(content: Content, submittedAt: Text)

  predicate ScalarAdmission(a: Admission) {
    && Scalar(a.content.note) && Scalar(a.content.shot) && Scalar(a.content.body) && Scalar(a.submittedAt)
    && (a.content.device.Some? ==> Scalar(a.content.device.value))
    && (a.content.signature.Some? ==> Scalar(a.content.signature.value))
  }

  // ---- The record's bytes -------------------------------------------------

  function Optional(text: Option<Text>): Value {
    if text.Some? then Str(text.value) else Null
  }

  function Member(name: string, value: Value, tail: List<Entry<Value>>): List<Entry<Value>> {
    Cons(Entry(Literal(name), value), tail)
  }

  function Identifiers(a: Admission): List<Entry<Value>> {
    Member("note_id", Str(a.content.note), Member("shot_id", Str(a.content.shot), Nil))
  }

  function Provenance(a: Admission): List<Entry<Value>> {
    Member("author_device_id", Optional(a.content.device),
    Member("companion_signature", Optional(a.content.signature), Identifiers(a)))
  }

  function Dated(a: Admission): List<Entry<Value>> {
    Member("created_at", Str(a.submittedAt), Provenance(a))
  }

  function Members(a: Admission): List<Entry<Value>> {
    Member("body", Str(a.content.body),
    Member("schema", Str(Literal("tohseno.marketing-note/1")), Dated(a)))
  }

  predicate Lengths(members: List<Entry<Value>>, lengths: set<nat>) {
    forall key :: key in Keys(members) ==> |key| in lengths
  }

  /** No other member's name has the length of this one. */
  lemma MemberInDomain(name: string, value: Value, tail: List<Entry<Value>>, lengths: set<nat>)
    requires Domain(value) && DomainMembers(tail) && Lengths(tail, lengths) && |name| !in lengths
    ensures DomainMembers(Member(name, value, tail)) && Lengths(Member(name, value, tail), lengths + {|name|})
  {
  }

  lemma IdentifiersInDomain(a: Admission)
    requires Scalar(a.content.note) && Scalar(a.content.shot)
    ensures DomainMembers(Identifiers(a)) && Lengths(Identifiers(a), {7})
  {
    var note, shot := Literal("note_id"), Literal("shot_id");
    assert note[0] != shot[0];
    assert Keys(Member("shot_id", Str(a.content.shot), Nil)) == {shot};
  }

  lemma ProvenanceInDomain(a: Admission)
    requires ScalarAdmission(a)
    ensures DomainMembers(Provenance(a)) && Lengths(Provenance(a), {7, 19, 16})
  {
    IdentifiersInDomain(a);
    var signature := Member("companion_signature", Optional(a.content.signature), Identifiers(a));
    MemberInDomain("companion_signature", Optional(a.content.signature), Identifiers(a), {7});
    MemberInDomain("author_device_id", Optional(a.content.device), signature, {7, 19});
  }

  lemma RecordInDomain(a: Admission)
    requires ScalarAdmission(a)
    ensures DomainMembers(Members(a))
  {
    DatedInDomain(a);
    var schema := Member("schema", Str(Literal("tohseno.marketing-note/1")), Dated(a));
    MemberInDomain("schema", Str(Literal("tohseno.marketing-note/1")), Dated(a), {7, 19, 16, 10});
    MemberInDomain("body", Str(a.content.body), schema, {7, 19, 16, 10, 6});
  }

  lemma DatedInDomain(a: Admission)
    requires ScalarAdmission(a)
    ensures DomainMembers(Dated(a)) && Lengths(Dated(a), {7, 19, 16, 10})
  {
    ProvenanceInDomain(a);
    MemberInDomain("created_at", Str(a.submittedAt), Provenance(a), {7, 19, 16});
  }

  /** The bytes of the record an attempt wants to store. */
  function NoteBytes(a: Admission): seq<Byte>
    requires ScalarAdmission(a)
  {
    RecordInDomain(a);
    Utf8(Canonical(Obj(Members(a))))
  }

  // ---- Attempts -----------------------------------------------------------

  datatype Outcome =
    | Receipt
    | DifferentCommand
    | Rejected
    | DifferentBytes
    | TooLarge

  datatype Stage =
    | Submitting
    | Admitted(submittedAt: Text)
    | Storing(submittedAt: Text)
    | Linking(submittedAt: Text)
    | Stored
    | Returned(outcome: Outcome)

  /** `given` is the caller's own submission time, if any. */
  datatype Attempt = Attempt(content: Content, given: Option<Text>, stage: Stage)

  datatype Status = Open | Completed | Refused

  datatype State = State(journal: Option<Admission>, status: Status, note: Option<seq<Byte>>, attempts: map<nat, Attempt>)

  datatype Step =
    | Begin(p: nat, content: Content, given: Option<Text>)
    | Admit(p: nat, now: Text)
    | Load(p: nat, targetMatches: bool)
    | Look(p: nat)
    | Link(p: nat)
    | Finish(p: nat)
    | Crash(p: nat)

  predicate Enabled(s: State, step: Step) {
    match step
    case Begin(p, content, given) =>
      p !in s.attempts && ScalarAdmission(Admission(content, if given.Some? then given.value else []))
    case Admit(p, now) => p in s.attempts && s.attempts[p].stage.Submitting? && Scalar(now)
    case Load(p, _) => p in s.attempts && s.attempts[p].stage.Admitted?
    case Look(p) => p in s.attempts && s.attempts[p].stage.Storing?
    case Link(p) => p in s.attempts && s.attempts[p].stage.Linking?
    case Finish(p) => p in s.attempts && s.attempts[p].stage.Stored?
    case Crash(p) => p in s.attempts
  }

  function Goto(s: State, p: nat, stage: Stage): State
    requires p in s.attempts
  {
    s.(attempts := s.attempts[p := s.attempts[p].(stage := stage)])
  }

  predicate ScalarAttempt(a: Attempt) {
    && ScalarAdmission(Admission(a.content, []))
    && (a.given.Some? ==> Scalar(a.given.value))
    && (a.stage.Admitted? || a.stage.Storing? || a.stage.Linking? ==> Scalar(a.stage.submittedAt))
  }

  predicate ScalarAttempts(s: State) {
    forall p :: p in s.attempts ==> ScalarAttempt(s.attempts[p])
  }

  /** `require_exact_marketing_record`. */
  function Exact(published: seq<Byte>, wanted: seq<Byte>): Stage {
    if |published| > MaximumRecordBytes then Returned(TooLarge)
    else if published != wanted then Returned(DifferentBytes)
    else Stored
  }

  function After(s: State, step: Step): State
    requires ScalarAttempts(s) && Enabled(s, step)
  {
    match step
    case Begin(p, content, given) => s.(attempts := s.attempts[p := Attempt(content, given, Submitting)])
    case Admit(p, now) =>
      var a := s.attempts[p];
      var mine := Admission(a.content, if a.given.Some? then a.given.value else now);
      if s.journal.None? then Goto(s, p, Admitted(mine.submittedAt)).(journal := Some(mine))
      else if s.journal.value.content == a.content then Goto(s, p, Admitted(s.journal.value.submittedAt))
      else Goto(s, p, Returned(DifferentCommand))
    case Load(p, targetMatches) =>
      var body := s.attempts[p].content.body;
      if s.status.Completed? then Goto(s, p, Returned(Receipt))
      else if s.status.Refused? || !targetMatches || !(0 < |Utf8(body)| <= MaximumNoteBytes)
      then Goto(s, p, Returned(Rejected)).(status := Refused)
      else Goto(s, p, Storing(s.attempts[p].stage.submittedAt))
    case Look(p) =>
      var at := s.attempts[p].stage.submittedAt;
      if s.note.None? then Goto(s, p, Linking(at))
      else Goto(s, p, Exact(s.note.value, NoteBytes(Admission(s.attempts[p].content, at))))
    case Link(p) =>
      var wanted := NoteBytes(Admission(s.attempts[p].content, s.attempts[p].stage.submittedAt));
      if s.note.None? then Goto(s, p, Stored).(note := Some(wanted))
      else Goto(s, p, Exact(s.note.value, wanted))
    case Finish(p) =>
      if s.status.Refused? then Goto(s, p, Returned(Rejected))
      else Goto(s, p, Returned(Receipt)).(status := Completed)
    case Crash(p) => s.(attempts := s.attempts - {p})
  }

  // ---- The invariant ------------------------------------------------------

  predicate AttemptFits(s: State, a: Attempt) {
    && (a.stage.Admitted? || a.stage.Storing? || a.stage.Linking? ==>
          s.journal == Some(Admission(a.content, a.stage.submittedAt)))
    && (a.stage.Stored? ==> s.note.Some?)
    && (a.stage.Returned? ==> a.stage.outcome != DifferentBytes)
    && (a.stage == Returned(TooLarge) ==> s.note.Some? && |s.note.value| > MaximumRecordBytes)
    && (a.stage == Returned(Receipt) ==> s.note.Some?)
  }

  ghost predicate NoteInvariant(s: State) {
    && ScalarAttempts(s)
    && (s.journal.Some? ==> ScalarAdmission(s.journal.value))
    && (s.note.Some? ==> s.journal.Some? && s.note.value == NoteBytes(s.journal.value))
    && (s.status.Completed? ==> s.note.Some?)
    && (forall p :: p in s.attempts ==> AttemptFits(s, s.attempts[p]))
  }

  lemma AttemptMoves(s: State, p: nat, a: Attempt)
    requires NoteInvariant(s) && ScalarAttempt(a) && AttemptFits(s, a)
    ensures NoteInvariant(s.(attempts := s.attempts[p := a]))
  {
  }

  /** The state with the durable parts moved on, the attempt not yet. */
  function Durable(s: State, step: Step): State
    requires ScalarAttempts(s) && Enabled(s, step)
  {
    After(s, step).(attempts := s.attempts)
  }

  /** The attempt that moved, over the durable parts as they are now. */
  lemma MovedFits(s: State, step: Step)
    requires NoteInvariant(s) && Enabled(s, step) && !step.Crash?
    ensures var a := After(s, step).attempts[step.p]; ScalarAttempt(a) && AttemptFits(Durable(s, step), a)
  {
  }

  predicate Legal(s: State, steps: seq<Step>)
    decreases |steps|
  {
    steps != [] ==>
      ScalarAttempts(s) && Enabled(s, steps[0]) && Legal(After(s, steps[0]), steps[1..])
  }

  function Run(s: State, steps: seq<Step>): State
    requires Legal(s, steps)
    decreases |steps|
  {
    if steps == [] then s else Run(After(s, steps[0]), steps[1..])
  }

  function Initial(): State { State(None, Open, None, map[]) }

  lemma {:induction false} NoteRun(s: State, steps: seq<Step>)
    requires NoteInvariant(s) && Legal(s, steps)
    ensures NoteInvariant(Run(s, steps))
    ensures s.note.Some? ==> Run(s, steps).note == s.note
    ensures s.journal.Some? ==> Run(s, steps).journal == s.journal
    decreases |steps|
  {
    if steps != [] {
      var step := steps[0];
      if !step.Crash? {
        MovedFits(s, step);
        AttemptMoves(Durable(s, step), step.p, After(s, step).attempts[step.p]);
      }
      NoteRun(After(s, steps[0]), steps[1..]);
    }
  }

  /** However attempts crash, retry and interleave, the command's note is published once
      and never replaced, it is the record of the first admission, and no attempt is told
      that the note contains different bytes. */
  lemma NoteIsTheFirstAdmission(before: seq<Step>, rest: seq<Step>)
    requires Legal(Initial(), before) && Legal(Run(Initial(), before), rest)
    ensures var middle := Run(Initial(), before); var end := Run(middle, rest);
      && (middle.note.Some? ==> end.note == middle.note)
      && (end.note.Some? ==>
            end.journal.Some? && ScalarAdmission(end.journal.value) && end.note.value == NoteBytes(end.journal.value))
      && (end.status.Completed? ==> end.note.Some?)
      && (forall p :: p in end.attempts ==> end.attempts[p].stage != Returned(DifferentBytes))
  {
    NoteRun(Initial(), before);
    NoteRun(Run(Initial(), before), rest);
  }

  /** A retry that finds the note already published takes it as its own exactly when the
      record is within the reader's limit; otherwise it fails, and every later one does. */
  lemma RetryAcceptsExactly(s: State, p: nat)
    requires NoteInvariant(s) && Enabled(s, Look(p)) && s.note.Some?
    ensures After(s, Look(p)).attempts[p].stage ==
      if |NoteBytes(s.journal.value)| <= MaximumRecordBytes then Stored else Returned(TooLarge)
  {
  }

  // ---- A note within its own limit, with a record beyond it ---------------

  lemma {:induction false} LongestPiece(entries: List<Entry<Text>>, key: Text)
    requires key in Keys(entries)
    ensures |Lookup(entries, key)| <= |Joined(Pieces(entries))|
  {
    if key != entries.head.key {
      LongestPiece(entries.tail, key);
    }
  }

  lemma {:induction false} CanonicalLookup(members: List<Entry<Value>>, key: Text)
    requires DomainMembers(members) && key in Keys(members)
    ensures Keys(CanonicalMembers(members)) == Keys(members) && DistinctKeys(CanonicalMembers(members))
    ensures Domain(Lookup(members, key)) && Lookup(CanonicalMembers(members), key) == Canonical(Lookup(members, key))
  {
    if members.tail.Cons? {
      CanonicalLookup(members.tail, if key == members.head.key then members.tail.head.key else key);
    }
  }

  lemma {:induction false} Utf8IsLonger(text: Text)
    ensures |text| <= |Utf8(text)|
    ensures (forall i :: 0 <= i < |text| ==> text[i] == QuoteMark) ==> |Utf8(text)| == |text| && |Escaped(text)| == 2 * |text|
  {
    if text != [] {
      Utf8IsLonger(text[1..]);
    }
  }

  /** A body of quotation marks, within the limit for bodies, makes a record beyond the
      limit for records: after a crash between publishing and completing, the command can
      never complete. */
  lemma QuotedNoteIsTooLarge(a: Admission)
    requires ScalarAdmission(a) && MaximumRecordBytes / 2 < |a.content.body| <= MaximumNoteBytes
    requires forall i :: 0 <= i < |a.content.body| ==> a.content.body[i] == QuoteMark
    ensures 0 < |Utf8(a.content.body)| <= MaximumNoteBytes
    ensures |NoteBytes(a)| > MaximumRecordBytes
  {
    var members := Members(a);
    RecordInDomain(a);
    Utf8IsLonger(a.content.body);
    CanonicalLookup(members, Literal("body"));
    SortLookup(CanonicalMembers(members), Literal("body"));
    LongestPiece(Sort(CanonicalMembers(members)), Literal("body"));
    assert |Quoted(a.content.body)| > MaximumRecordBytes;
    Utf8IsLonger(Canonical(Obj(members)));
  }
}
