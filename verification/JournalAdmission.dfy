/** Admission to the command journal: a private staging directory is filled, then renamed
    to the command's name. Any number of callers, any command IDs, crashes anywhere. */
module JournalAdmission {
  import opened Wrappers
  import Unicode
  import opened Command

  type Bytes = seq<bv8>

  const MaximumJsonBytes: nat := 8 * 1024 * 1024
  const MaximumAttachmentBytes: nat := 64 * 1024 * 1024
  const MaximumTotalAttachmentBytes: nat := 160 * 1024 * 1024
  const MaximumFiles: nat := 8
  const MaximumCommands: nat := 100_000

  /** Everything about a command but its ID, its time and its payload. */
  datatype Identity = Identity(
    kind: CommandKind,
    origin: nat,
    originDevice: Option<string>,
    workspace: string,
    shot: Option<nat>,
    baseExpression: Option<nat>,
    baseVersion: Option<nat>)

  datatype File = File(name: string, bytes: Bytes)

  datatype Request = Request(id: string, identity: Identity, submittedAt: nat, payload: Bytes, files: seq<File>)

  datatype Record = Record(id: string, identity: Identity, submittedAt: nat)

  datatype Refusal =
    | InvalidIdentifier
    | TooManyFiles
    | InvalidFileName
    | DuplicateFileName
    | FileTooLarge
    | FilesTooLarge
    | PayloadTooLarge
    | AtCapacity
    | DifferentCommand
    | DifferentPayload
    | DifferentInputSet
    | DifferentInput(name: string)
    | IoError

  // ---- Validation ---------------------------------------------------------

  predicate IdentifierChar(c: char) {
    'a' <= c <= 'z' || 'A' <= c <= 'Z' || '0' <= c <= '9' || c == '-' || c == '_'
  }

  predicate ValidIdentifier(value: string) {
    0 < |value| <= 128 && forall i :: 0 <= i < |value| ==> IdentifierChar(value[i])
  }

  /** The bytes of a character in UTF-8. */
  function ByteLength(c: char): nat {
    if c as int < 0x80 then 1 else if c as int < 0x800 then 2 else if c as int < 0x1_0000 then 3 else 4
  }

  function NameLength(name: string): nat {
    if name == "" then 0 else ByteLength(name[0]) + NameLength(name[1..])
  }

  /** The control characters of Unicode: C0, delete and C1. */
  predicate Control(c: char) {
    (c as int) < 0x20 || 0x7F <= c as int <= 0x9F
  }

  predicate ValidFileName(name: string) {
    && name != "" && NameLength(name) <= 128 && name != "." && name != ".."
    && forall i :: 0 <= i < |name| ==> !Control(name[i]) && name[i] != '/' && name[i] != '\\'
  }

  /** What `len` counts: the bytes of the name in UTF-8. */
  lemma {:induction false} NameLengthIsUtf8(name: string)
    ensures NameLength(name) == |Unicode.Utf8(Unicode.Scalars(name))|
  {
    if name != "" {
      NameLengthIsUtf8(name[1..]);
      assert Unicode.Scalars(name)[1..] == Unicode.Scalars(name[1..]);
    }
  }

  /** The limits, and the characters refused in a name, spelt out. */
  lemma FileLimits(files: seq<File>, c: char)
    ensures ValidFiles(files) <==>
      && |files| <= 8 && DistinctNames(files) && TotalBytes(files) <= 167_772_160
      && forall i :: 0 <= i < |files| ==> ValidFileName(files[i].name) && |files[i].bytes| <= 67_108_864
    ensures Control(c) <==> c as int <= 0x1F || c as int == 0x7F || 0x80 <= c as int <= 0x9F
    ensures ValidFileName([c]) <==> !Control(c) && c != '/' && c != '\\' && c != '.'
    ensures !ValidFileName("") && !ValidFileName(".") && !ValidFileName("..")
    ensures ValidIdentifier(seq(128, i => 'a')) && !ValidIdentifier(seq(129, i => 'a')) && !ValidIdentifier("")
    ensures ValidIdentifier([c]) <==>
      'a' <= c <= 'z' || 'A' <= c <= 'Z' || '0' <= c <= '9' || c in ['-', '_']
  {
    assert ValidIdentifier([c]) <==> IdentifierChar([c][0]);
    assert [c][0] == c && NameLength([c]) == ByteLength(c) + NameLength([c][1..]);
    assert ValidFileName([c]) ==> !Control([c][0]) && [c] != ".";
    if c == '.' {
      assert [c] == ".";
    }
  }

  predicate DistinctNames(files: seq<File>) {
    forall i, j :: 0 <= i < j < |files| ==> files[i].name != files[j].name
  }

  function TotalBytes(files: seq<File>): nat {
    if files == [] then 0 else TotalBytes(files[..|files| - 1]) + |files[|files| - 1].bytes|
  }

  predicate ValidFiles(files: seq<File>) {
    && |files| <= MaximumFiles && DistinctNames(files) && TotalBytes(files) <= MaximumTotalAttachmentBytes
    && forall i :: 0 <= i < |files| ==> ValidFileName(files[i].name) && |files[i].bytes| <= MaximumAttachmentBytes
  }

  /** `validate_private_files`. */
  method ValidatePrivateFiles(files: seq<File>) returns (refusal: Option<Refusal>)
    ensures refusal.None? <==> ValidFiles(files)
  {
    if |files| > MaximumFiles {
      return Some(TooManyFiles);
    }
    var total := 0;
    var names: set<string> := {};
    for i := 0 to |files|
      invariant total == TotalBytes(files[..i])
      invariant names == set j | 0 <= j < i :: files[j].name
      invariant DistinctNames(files[..i])
      invariant forall j :: 0 <= j < i ==> ValidFileName(files[j].name) && |files[j].bytes| <= MaximumAttachmentBytes
    {
      if !ValidFileName(files[i].name) {
        return Some(InvalidFileName);
      }
      if files[i].name in names {
        return Some(DuplicateFileName);
      }
      names := names + {files[i].name};
      if |files[i].bytes| > MaximumAttachmentBytes {
        return Some(FileTooLarge);
      }
      assert files[..i + 1][..i] == files[..i];
      total := total + |files[i].bytes|;
    }
    assert files[..|files|] == files;
    return if total > MaximumTotalAttachmentBytes then Some(FilesTooLarge) else None;
  }

  predicate ValidRequest(request: Request) {
    && ValidIdentifier(request.id) && ValidIdentifier(request.identity.workspace)
    && (request.identity.originDevice.Some? ==> ValidIdentifier(request.identity.originDevice.value))
    && ValidFiles(request.files) && |request.payload| <= MaximumJsonBytes
  }

  // ---- Directories --------------------------------------------------------

  /** A command directory, complete or not. `status` stands for all that changes later. */
  datatype Directory = Directory(
    record: Option<Record>,
    payload: Option<Bytes>,
    inputs: Option<map<string, Bytes>>,
    status: Option<CommandState>)

  datatype Write = PutRecord | PutPayload | MakeInputs | PutInput(i: nat) | PutStatus

  function Writes(request: Request): seq<Write> {
    [PutRecord, PutPayload]
    + (if request.files == [] then [] else [MakeInputs] + seq(|request.files|, (i: nat) => PutInput(i)))
    + [PutStatus]
  }

  function RecordOf(request: Request): Record {
    Record(request.id, request.identity, request.submittedAt)
  }

  function Written(dir: Directory, request: Request, write: Write): Directory {
    match write
    case PutRecord => dir.(record := Some(RecordOf(request)))
    case PutPayload => dir.(payload := Some(request.payload))
    case MakeInputs => dir.(inputs := Some(map[]))
    case PutInput(i) =>
      if i < |request.files| && dir.inputs.Some?
      then dir.(inputs := Some(dir.inputs.value[request.files[i].name := request.files[i].bytes])) else dir
    case PutStatus => dir.(status := Some(Received))
  }

  /** The staging directory after the first `count` writes. */
  function Built(request: Request, count: nat): Directory
    requires count <= |Writes(request)|
  {
    if count == 0 then Directory(None, None, None, None)
    else Written(Built(request, count - 1), request, Writes(request)[count - 1])
  }

  function Contents(files: seq<File>): map<string, Bytes> {
    if files == [] then map[]
    else Contents(files[..|files| - 1])[files[|files| - 1].name := files[|files| - 1].bytes]
  }

  function InputsOf(dir: Directory): map<string, Bytes> {
    if dir.inputs.Some? then dir.inputs.value else map[]
  }

  lemma {:induction false} BuiltInputs(request: Request, i: nat)
    requires request.files != [] && i <= |request.files|
    ensures Built(request, 3 + i)
            == Directory(Some(RecordOf(request)), Some(request.payload), Some(Contents(request.files[..i])), None)
  {
    if i == 0 {
      assert Built(request, 1) == Directory(Some(RecordOf(request)), None, None, None);
      assert Built(request, 2).payload == Some(request.payload);
    } else {
      BuiltInputs(request, i - 1);
      assert Writes(request)[2 + i] == PutInput(i - 1);
      assert request.files[..i][..i - 1] == request.files[..i - 1];
    }
  }

  /** A complete staging directory holds exactly what was submitted. */
  lemma BuiltCompletely(request: Request)
    ensures var dir := Built(request, |Writes(request)|);
            && dir.record == Some(RecordOf(request)) && dir.payload == Some(request.payload)
            && InputsOf(dir) == Contents(request.files) && dir.status == Some(Received)
  {
    if request.files == [] {
      assert Writes(request) == [PutRecord, PutPayload, PutStatus];
      assert Built(request, 1) == Directory(Some(RecordOf(request)), None, None, None);
      assert Built(request, 2).payload == Some(request.payload);
    } else {
      BuiltInputs(request, |request.files|);
      assert request.files[..|request.files|] == request.files;
    }
  }

  // ---- An existing command ------------------------------------------------

  predicate Complete(dir: Directory) {
    dir.record.Some? && dir.payload.Some? && dir.status.Some?
  }

  function Names(files: seq<File>): set<string> {
    set i | 0 <= i < |files| :: files[i].name
  }

  function FirstDifferent(inputs: map<string, Bytes>, files: seq<File>): Option<Refusal> {
    if files == [] then None
    else if files[0].name !in inputs then Some(IoError)
    else if inputs[files[0].name] != files[0].bytes then Some(DifferentInput(files[0].name))
    else FirstDifferent(inputs, files[1..])
  }

  /** What `read_existing` answers. */
  function Existing(dir: Directory, request: Request): Result<Record, Refusal>
    requires Complete(dir)
  {
    if dir.record.value.identity != request.identity then Err(DifferentCommand)
    else if dir.payload.value != request.payload then Err(DifferentPayload)
    else if InputsOf(dir).Keys != Names(request.files) then Err(DifferentInputSet)
    else match FirstDifferent(InputsOf(dir), request.files)
      case Some(refusal) => Err(refusal)
      case None => Ok(dir.record.value)
  }

  /** `read_existing` over one listing of the input directory, in whatever order. */
  method ReadExisting(dir: Directory, listing: seq<string>, request: Request) returns (outcome: Result<Record, Refusal>)
    requires Complete(dir) && forall name :: name in listing <==> name in InputsOf(dir)
    ensures outcome == Existing(dir, request)
  {
    if dir.record.value.identity != request.identity {
      return Err(DifferentCommand);
    }
    if dir.payload.value != request.payload {
      return Err(DifferentPayload);
    }
    var observed: set<string> := {};
    for i := 0 to |listing|
      invariant observed == set j | 0 <= j < i :: listing[j]
    {
      observed := observed + {listing[i]};
    }
    assert observed == InputsOf(dir).Keys;
    if observed != Names(request.files) {
      return Err(DifferentInputSet);
    }
    for i := 0 to |request.files|
      invariant FirstDifferent(InputsOf(dir), request.files) == FirstDifferent(InputsOf(dir), request.files[i..])
    {
      assert request.files[i..][0] == request.files[i] && request.files[i..][1..] == request.files[i + 1..];
      if InputsOf(dir)[request.files[i].name] != request.files[i].bytes {
        return Err(DifferentInput(request.files[i].name));
      }
    }
    assert request.files[|request.files|..] == [];
    return Ok(dir.record.value);
  }

  lemma {:induction false} ContentsAt(files: seq<File>, i: nat)
    requires DistinctNames(files) && i < |files|
    ensures files[i].name in Contents(files) && Contents(files)[files[i].name] == files[i].bytes
  {
    if i < |files| - 1 {
      ContentsAt(files[..|files| - 1], i);
    }
  }

  lemma {:induction false} ContentsOnly(files: seq<File>, name: string) returns (i: nat)
    requires name in Contents(files)
    ensures i < |files| && files[i].name == name
  {
    i := |files| - 1;
    if files[i].name != name {
      i := ContentsOnly(files[..i], name);
    }
  }

  lemma {:induction false} NoDifference(inputs: map<string, Bytes>, files: seq<File>)
    ensures FirstDifferent(inputs, files).None? <==>
            forall i :: 0 <= i < |files| ==> files[i].name in inputs && inputs[files[i].name] == files[i].bytes
  {
    if files != [] {
      NoDifference(inputs, files[1..]);
      assert files == [files[0]] + files[1..];
    }
  }

  /** A retry is taken for the stored command exactly when identity, payload bytes and
      the whole input collection are those of the first admission. */
  lemma ExistingMatchesExactly(dir: Directory, request: Request)
    requires Complete(dir) && DistinctNames(request.files)
    ensures Existing(dir, request).Ok? <==>
      && dir.record.value.identity == request.identity && dir.payload.value == request.payload
      && InputsOf(dir) == Contents(request.files)
  {
    NoDifference(InputsOf(dir), request.files);
    forall i | 0 <= i < |request.files|
      ensures request.files[i].name in Contents(request.files)
              && Contents(request.files)[request.files[i].name] == request.files[i].bytes
    {
      ContentsAt(request.files, i);
    }
    forall name | name in Contents(request.files) ensures name in Names(request.files) {
      var i := ContentsOnly(request.files, name);
    }
    assert Contents(request.files).Keys == Names(request.files);
    if Existing(dir, request).Ok? {
      assert InputsOf(dir) == Contents(request.files);
    }
  }

  // ---- Concurrent admissions ----------------------------------------------

  datatype Stage =
    | Looking
    | Creating
    | Staging(name: string, count: nat)
    | Colliding(name: string)
    | Reading
    | Returned(outcome: Result<Record, Refusal>)

  datatype Caller = Caller(request: Request, stage: Stage)

  datatype State = State(callers: map<nat, Caller>, root: map<string, Directory>)

  datatype Step =
    | Call(p: nat, request: Request)
    | Look(p: nat)
    | Create(p: nat, uuid: string)
    | WriteNext(p: nat)
    | Rename(p: nat)
    | Discard(p: nat)
    | Read(p: nat)
    | Fail(p: nat)
    | Crash(p: nat)
    | Update(id: string, status: CommandState)

  function StagingName(id: string, uuid: string): string {
    ".staging-" + id + "-" + uuid
  }

  predicate Succeeded(s: State, p: nat) {
    p in s.callers && s.callers[p].stage.Returned? && s.callers[p].stage.outcome.Ok?
  }

  predicate Enabled(s: State, step: Step) {
    match step
    case Call(p, request) => p !in s.callers && ValidRequest(request)
    case Look(p) => p in s.callers && s.callers[p].stage.Looking?
    case Create(p, _) => p in s.callers && s.callers[p].stage.Creating?
    case WriteNext(p) =>
      p in s.callers && s.callers[p].stage.Staging? && s.callers[p].stage.count < |Writes(s.callers[p].request)|
    case Rename(p) =>
      p in s.callers && s.callers[p].stage.Staging? && s.callers[p].stage.count == |Writes(s.callers[p].request)|
    case Discard(p) => p in s.callers && s.callers[p].stage.Colliding?
    case Read(p) => p in s.callers && s.callers[p].stage.Reading?
    case Fail(p) => p in s.callers && !s.callers[p].stage.Returned?
    case Crash(p) => p in s.callers
    case Update(id, _) => ValidIdentifier(id) && id in s.root
  }

  function Goto(s: State, p: nat, stage: Stage): State
    requires p in s.callers
  {
    s.(callers := s.callers[p := s.callers[p].(stage := stage)])
  }

  /** Renaming replaces an absent or empty directory only. */
  predicate Occupied(root: map<string, Directory>, name: string) {
    name in root && root[name] != Directory(None, None, None, None)
  }

  function After(s: State, step: Step): State
    requires Enabled(s, step)
  {
    match step
    case Call(p, request) => s.(callers := s.callers[p := Caller(request, Looking)])
    case Look(p) =>
      if s.callers[p].request.id in s.root then Goto(s, p, Reading)
      else if |s.root| >= MaximumCommands then Goto(s, p, Returned(Err(AtCapacity)))
      else Goto(s, p, Creating)
    case Create(p, uuid) =>
      var name := StagingName(s.callers[p].request.id, uuid);
      if name in s.root then Goto(s, p, Returned(Err(IoError)))
      else Goto(s, p, Staging(name, 0)).(root := s.root[name := Directory(None, None, None, None)])
    case WriteNext(p) =>
      var stage := s.callers[p].stage;
      var request := s.callers[p].request;
      if stage.name !in s.root then Goto(s, p, Returned(Err(IoError)))
      else Goto(s, p, Staging(stage.name, stage.count + 1))
             .(root := s.root[stage.name := Written(s.root[stage.name], request, Writes(request)[stage.count])])
    case Rename(p) =>
      var stage := s.callers[p].stage;
      var request := s.callers[p].request;
      if stage.name !in s.root then Goto(s, p, Returned(Err(IoError)))
      else if Occupied(s.root, request.id) then Goto(s, p, Colliding(stage.name))
      else Goto(s, p, Returned(Ok(RecordOf(request))))
             .(root := (s.root - {stage.name})[request.id := s.root[stage.name]])
    case Discard(p) => Goto(s, p, Reading).(root := s.root - {s.callers[p].stage.name})
    case Read(p) =>
      var request := s.callers[p].request;
      if request.id !in s.root || !Complete(s.root[request.id]) then Goto(s, p, Returned(Err(IoError)))
      else Goto(s, p, Returned(Existing(s.root[request.id], request)))
    case Fail(p) => Goto(s, p, Returned(Err(IoError)))
    case Crash(p) => s.(callers := s.callers - {p})
    case Update(id, status) => s.(root := s.root[id := s.root[id].(status := Some(status))])
  }

  predicate Legal(s: State, steps: seq<Step>)
    decreases |steps|
  {
    steps != [] ==> Enabled(s, steps[0]) && Legal(After(s, steps[0]), steps[1..])
  }

  function Run(s: State, steps: seq<Step>): State
    requires Legal(s, steps)
    decreases |steps|
  {
    if steps == [] then s else Run(After(s, steps[0]), steps[1..])
  }

  // ---- A caller by itself -------------------------------------------------

  /** An identifier that is there is read, room or no room; a new one is staged exactly
      while the journal holds fewer than 100,000 entries. */
  lemma LooksExactly(s: State, p: nat)
    requires Enabled(s, Look(p))
    ensures var id, after := s.callers[p].request.id, After(s, Look(p));
      && after.root == s.root
      && after.callers[p].stage == (if id in s.root then Reading
                                    else if |s.root| < 100_000 then Creating
                                    else Returned(Err(AtCapacity)))
  {
  }

  /** Its writes, then the rename. */
  lemma {:induction false} BuildsAlone(s: State, p: nat) returns (steps: seq<Step>)
    requires p in s.callers && s.callers[p].stage.Staging?
    requires s.callers[p].stage.count <= |Writes(s.callers[p].request)|
    requires s.callers[p].stage.name in s.root && s.callers[p].request.id !in s.root
    ensures Legal(s, steps) && p in Run(s, steps).callers && s.callers[p].request.id in Run(s, steps).root
    ensures Run(s, steps).callers[p] == Caller(s.callers[p].request, Returned(Ok(RecordOf(s.callers[p].request))))
    decreases |Writes(s.callers[p].request)| - s.callers[p].stage.count
  {
    if s.callers[p].stage.count == |Writes(s.callers[p].request)| {
      steps := [Rename(p)];
      assert steps[1..] == [];
    } else {
      var rest := BuildsAlone(After(s, WriteNext(p)), p);
      steps := [WriteNext(p)] + rest;
      assert steps[1..] == rest;
    }
  }

  /** Undisturbed, a new command is admitted exactly if there is room for it. */
  lemma AdmittedAloneExactly(s: State, p: nat, uuid: string) returns (steps: seq<Step>)
    requires p in s.callers && s.callers[p].stage.Looking? && s.callers[p].request.id !in s.root
    requires StagingName(s.callers[p].request.id, uuid) !in s.root
    ensures Legal(s, steps) && p in Run(s, steps).callers
    ensures Run(s, steps).callers[p].stage ==
            Returned(if |s.root| < 100_000 then Ok(RecordOf(s.callers[p].request)) else Err(AtCapacity))
  {
    var looked := After(s, Look(p));
    LooksExactly(s, p);
    if |s.root| < 100_000 {
      var created := After(looked, Create(p, uuid));
      assert |StagingName(s.callers[p].request.id, uuid)| > |s.callers[p].request.id|;
      var rest := BuildsAlone(created, p);
      steps := [Look(p), Create(p, uuid)] + rest;
      assert steps[1..] == [Create(p, uuid)] + rest && steps[1..][1..] == rest;
    } else {
      steps := [Look(p)];
      assert steps[1..] == [];
    }
  }

  // ---- What every run keeps -----------------------------------------------

  /** No name a staging directory can have is a command ID, whatever the ID and UUID. */
  lemma StagingIsNoCommand(id: string, uuid: string)
    ensures !ValidIdentifier(StagingName(id, uuid))
  {
    assert StagingName(id, uuid)[0] == '.';
    assert !IdentifierChar('.');
  }

  predicate Owns(stage: Stage, name: string) {
    (stage.Staging? || stage.Colliding?) && stage.name == name
  }

  /** A published directory matches a request in all but the time. */
  predicate Matches(dir: Directory, request: Request) {
    && Complete(dir) && dir.record.value.id == request.id && dir.record.value.identity == request.identity
    && dir.payload.value == request.payload && InputsOf(dir) == Contents(request.files)
  }

  predicate CallerFits(root: map<string, Directory>, caller: Caller) {
    && ValidRequest(caller.request)
    && (caller.stage.Staging? ==>
          && !ValidIdentifier(caller.stage.name) && caller.stage.name in root
          && caller.stage.count <= |Writes(caller.request)|
          && root[caller.stage.name] == Built(caller.request, caller.stage.count))
    && (caller.stage.Colliding? ==>
          !ValidIdentifier(caller.stage.name) && caller.stage.name in root && caller.request.id in root)
    && (caller.stage.Reading? ==> caller.request.id in root)
    && (caller.stage.Returned? && caller.stage.outcome.Ok? ==>
          && caller.request.id in root && Matches(root[caller.request.id], caller.request)
          && root[caller.request.id].record == Some(caller.stage.outcome.value))
  }

  /** Published directories are complete and bear their own name. */
  ghost predicate Published(root: map<string, Directory>) {
    forall id :: id in root && ValidIdentifier(id) ==> Complete(root[id]) && root[id].record.value.id == id
  }

  ghost predicate OneOwner(callers: map<nat, Caller>) {
    forall p, q, name ::
      p in callers && q in callers && Owns(callers[p].stage, name) && Owns(callers[q].stage, name) ==> p == q
  }

  ghost predicate AdmissionInvariant(s: State) {
    && Published(s.root)
    && (forall p :: p in s.callers ==> CallerFits(s.root, s.callers[p]))
    && OneOwner(s.callers)
  }

  /** Whatever is published stays, but for its status. */
  ghost predicate Keeps(before: map<string, Directory>, after: map<string, Directory>) {
    forall id :: ValidIdentifier(id) && id in before ==>
      && id in after && after[id].(status := before[id].status) == before[id]
      && (before[id].status.Some? ==> after[id].status.Some?)
  }

  /** One caller moves on, over directories that stay as they are. */
  lemma Moved(s: State, p: nat, caller: Caller)
    requires AdmissionInvariant(s) && CallerFits(s.root, caller)
    requires forall name :: Owns(caller.stage, name) ==> p in s.callers && Owns(s.callers[p].stage, name)
    ensures AdmissionInvariant(s.(callers := s.callers[p := caller]))
  {
  }

  lemma QuietStep(s: State, step: Step)
    requires AdmissionInvariant(s) && Enabled(s, step)
    requires step.Call? || step.Look? || step.Read? || step.Fail?
    ensures AdmissionInvariant(After(s, step)) && After(s, step).root == s.root
  {
    if step.Read? {
      var request := s.callers[step.p].request;
      ExistingMatchesExactly(s.root[request.id], request);
    }
    Moved(s, step.p, After(s, step).callers[step.p]);
  }

  lemma CreateStep(s: State, p: nat, uuid: string)
    requires AdmissionInvariant(s) && Enabled(s, Create(p, uuid))
    ensures AdmissionInvariant(After(s, Create(p, uuid))) && Keeps(s.root, After(s, Create(p, uuid)).root)
  {
    var after := After(s, Create(p, uuid));
    var name := StagingName(s.callers[p].request.id, uuid);
    StagingIsNoCommand(s.callers[p].request.id, uuid);
    if name in s.root {
      Moved(s, p, after.callers[p]);
    } else {
      forall q | q in s.callers && q != p ensures CallerFits(after.root, s.callers[q]) && !Owns(s.callers[q].stage, name) {
      }
    }
  }

  lemma WriteStep(s: State, p: nat)
    requires AdmissionInvariant(s) && Enabled(s, WriteNext(p))
    ensures AdmissionInvariant(After(s, WriteNext(p))) && Keeps(s.root, After(s, WriteNext(p)).root)
  {
    var after := After(s, WriteNext(p));
    var name := s.callers[p].stage.name;
    forall q | q in s.callers && q != p ensures CallerFits(after.root, s.callers[q]) {
      assert Owns(s.callers[p].stage, name);
    }
  }

  lemma RenameStep(s: State, p: nat)
    requires AdmissionInvariant(s) && Enabled(s, Rename(p))
    ensures AdmissionInvariant(After(s, Rename(p))) && Keeps(s.root, After(s, Rename(p)).root)
  {
    var after := After(s, Rename(p));
    var name := s.callers[p].stage.name;
    var request := s.callers[p].request;
    if Occupied(s.root, request.id) {
      Moved(s, p, after.callers[p]);
    } else {
      BuiltCompletely(request);
      assert request.id !in s.root;
      var removed := s.root - {name};
      forall q | q in s.callers && q != p ensures CallerFits(after.root, s.callers[q]) {
        assert Owns(s.callers[p].stage, name);
      }
    }
  }

  lemma DiscardStep(s: State, p: nat)
    requires AdmissionInvariant(s) && Enabled(s, Discard(p))
    ensures AdmissionInvariant(After(s, Discard(p))) && Keeps(s.root, After(s, Discard(p)).root)
  {
    var after := After(s, Discard(p));
    var name := s.callers[p].stage.name;
    forall q | q in s.callers && q != p ensures CallerFits(after.root, s.callers[q]) {
      assert Owns(s.callers[p].stage, name);
    }
  }

  lemma {:induction false} AdmissionRun(s: State, steps: seq<Step>)
    requires AdmissionInvariant(s) && Legal(s, steps)
    ensures AdmissionInvariant(Run(s, steps)) && Keeps(s.root, Run(s, steps).root)
    decreases |steps|
  {
    if steps != [] {
      var step := steps[0];
      if step.Create? {
        CreateStep(s, step.p, step.uuid);
      } else if step.WriteNext? {
        WriteStep(s, step.p);
      } else if step.Rename? {
        RenameStep(s, step.p);
      } else if step.Discard? {
        DiscardStep(s, step.p);
      } else if !step.Update? && !step.Crash? {
        QuietStep(s, step);
      }
      AdmissionRun(After(s, steps[0]), steps[1..]);
    }
  }

  ghost predicate Reachable(s: State) {
    exists steps: seq<Step> :: Legal(State(map[], map[]), steps) && Run(State(map[], map[]), steps) == s
  }

  /** Every caller that succeeded, whichever way, got the one published record, and that
      record, its payload and its exact inputs are the ones the caller submitted. */
  lemma SuccessIsThePublishedCommand(s: State, p: nat)
    requires Reachable(s) && Succeeded(s, p)
    ensures var request := s.callers[p].request;
      && request.id in s.root && Matches(s.root[request.id], request)
      && s.root[request.id].record == Some(s.callers[p].stage.outcome.value)
  {
    var steps :| Legal(State(map[], map[]), steps) && Run(State(map[], map[]), steps) == s;
    AdmissionRun(State(map[], map[]), steps);
  }

  /** A published command is complete and never changes again, but for its status. */
  lemma PublishedOnce(s: State, steps: seq<Step>, id: string)
    requires Reachable(s) && Legal(s, steps) && ValidIdentifier(id) && id in s.root
    ensures Complete(s.root[id]) && s.root[id].record.value.id == id
    ensures var after := Run(s, steps);
            id in after.root && after.root[id].(status := s.root[id].status) == s.root[id]
  {
    var before :| Legal(State(map[], map[]), before) && Run(State(map[], map[]), before) == s;
    AdmissionRun(State(map[], map[]), before);
    AdmissionRun(s, steps);
  }

  /** Renaming a complete staging directory ends in one of two ways: the caller's command
      is published and the caller succeeds, or the ID was published before. */
  lemma RenamePublishesOrCollides(s: State, p: nat)
    requires AdmissionInvariant(s) && Enabled(s, Rename(p))
    ensures var after := After(s, Rename(p));
      var request := s.callers[p].request;
      if request.id in s.root then after.root == s.root && after.callers[p].stage == Colliding(s.callers[p].stage.name)
      else Succeeded(after, p) && Matches(after.root[request.id], request)
           && after.root[request.id].record.value.submittedAt == request.submittedAt
  {
    BuiltCompletely(s.callers[p].request);
  }

  /** Two callers of one ID that both succeed submitted the same command, and are given
      the same record, including its time. */
  lemma SuccessfulCallersAgree(s: State, p: nat, q: nat)
    requires Reachable(s)
    requires Succeeded(s, p)
    requires Succeeded(s, q)
    requires s.callers[p].request.id == s.callers[q].request.id
    ensures s.callers[p].stage.outcome == s.callers[q].stage.outcome
    ensures s.callers[p].request.identity == s.callers[q].request.identity
    ensures s.callers[p].request.payload == s.callers[q].request.payload
    ensures Contents(s.callers[p].request.files) == Contents(s.callers[q].request.files)
  {
    SuccessIsThePublishedCommand(s, p);
    SuccessIsThePublishedCommand(s, q);
  }
}
