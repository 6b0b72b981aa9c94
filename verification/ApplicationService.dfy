/** One durable command inside the service: processors that hold its claim one at a time,
    reconcilers that hold none, an execution that ends whenever it likes, and service
    crashes anywhere. The journal's own transitions are those of `JournalTransitions`. */
module ApplicationService {
  import opened Wrappers
  import opened Command
  import opened JournalTransitions

  /** A note's receipt names no execution. */
  datatype Receipt = Receipt(kind: CommandKind, shot: nat, execution: Option<nat>)

  /** A durable preparation; `work` stands for its ordinal, harness, route and digests. */
  datatype Execution = Execution(shot: nat, mode: CommandKind, work: nat)

  datatype Completion = Completion(execution: nat, shot: nat, work: nat, landed: bool, cancelled: bool)

  /** The processor that holds the claim. */
  datatype Work =
    | Entered
    | Loaded(status: Status<Receipt>)
    | Resumed(state: CommandState)
    | Selecting(state: CommandState)
    | Creating
    | Created(shot: nat)
    | Ready(shot: nat)
    | Noting
    | Noted
    | Answering(receipt: Receipt)

  /** A monitor, or startup recovery, inside `reconcile_execution_status`. */
  datatype Reconciler =
    | Idle
    | SawPhase(waiting: bool)
    | NoCompletion(waiting: bool)
    | SawCompletion(completion: Completion)
    | Verifying
    | Projecting(target: CommandState)
    | Settling(target: CommandState)

  /** The command itself: `target` is the Shot a note or an evolution names, `identify`
      derives an execution's identity from a command's. */
  datatype Job = Job(command: nat, kind: CommandKind, target: nat, identify: nat -> nat)

  /** `executions` are the durable preparations of all commands.
      `published`, `verified`, `gaveUp`, `returned` and `broken` are history: the
      completions this command's execution ever had, whether a landed Version was verified,
      whether a monitor gave up on it, the receipts given to callers, and whether some processor met a state without its stable receipt
      or an execution of its own identity that is bound to different work. */
  datatype State = State(
    job: Job,
    status: Status<Receipt>,
    appShot: Option<nat>,
    executions: map<nat, Execution>,
    waiting: bool,
    completion: Option<Completion>,
    work: Option<Work>,
    reconcilers: map<nat, Reconciler>,
    published: set<Completion>,
    verified: bool,
    gaveUp: bool,
    returned: set<Receipt>,
    broken: bool)

  datatype WorkAction =
    | Load
    | Judge(valid: bool)
    | Seek
    | Decide(ok: bool)
    | CallEngine(ok: bool, reserved: nat)
    | Prepare(ok: bool, work: nat)
    | WriteRunning
    | StoreNote
    | WriteNote
    | Answer(ok: bool)
    | GiveUp

  datatype ReconcilerAction =
    | ReadPhase
    | ReadCompletion
    | LoadStatus
    | Verify(ok: bool)
    | Publish
    | Abandon

  datatype Action =
    | Enter
    | Working(work: WorkAction)
    | Spawn(q: nat)
    | Reconciling(q: nat, reconcile: ReconcilerAction)
    | Crash
    | MovePhase(waiting: bool)
    | Complete(completion: Completion)
    | Reserve(shot: nat)
    | PrepareOther(command: nat, execution: Execution)

  datatype Step = Step(now: nat, action: Action)

  predicate Factory(kind: CommandKind) { kind.ShotCreate? || kind.ShotEvolve? }

  /** `command_execution_id`. */
  function Id(s: State): nat { s.job.identify(s.job.command) }

  /** `load_command_execution`. */
  function Own(s: State): Option<Execution> {
    if Id(s) in s.executions then Some(s.executions[Id(s)]) else None
  }

  function ReceiptOf(s: State, shot: nat): Receipt {
    Receipt(s.job.kind, shot, if Factory(s.job.kind) then Some(Id(s)) else None)
  }

  /** The completion repeats the identity and the binding of the durable preparation. */
  predicate Binds(s: State, c: Completion) {
    Own(s).Some? && c.execution == Id(s) && c.shot == Own(s).value.shot && c.work == Own(s).value.work
  }

  // ---- Journal access -----------------------------------------------------

  function Attempt(s: State, now: nat, next: CommandState, receipt: Option<Receipt>, reason: Option<string>)
    : Result<Status<Receipt>, Refusal>
  {
    Transitioned(s.status, Request(next, receipt, reason, now))
  }

  /** The state after a transition, refused or not. */
  function Moved(s: State, now: nat, next: CommandState, receipt: Option<Receipt>, reason: Option<string>): State {
    var outcome := Attempt(s, now, next, receipt, reason);
    s.(status := if outcome.Ok? then outcome.value else s.status)
  }

  /** Answers for a failed, rejected or cancelled command are not taken from its receipt. */
  predicate Replayable(status: Status<Receipt>) {
    status.receipt.Some? && !(status.state in {Rejected, Failed, Cancelled})
  }

  // ---- The processor ------------------------------------------------------

  predicate WorkMay(s: State, action: WorkAction)
    requires s.work.Some?
  {
    var at := s.work.value;
    match action
    case Load => at.Entered?
    case Judge(_) => at.Loaded?
    case Seek => at.Resumed?
    case Decide(_) => at.Selecting?
    case CallEngine(_, _) => at.Creating?
    case Prepare(_, _) => at.Created? && s.appShot.Some?
    case WriteRunning => at.Ready?
    case StoreNote => at.Noting?
    case WriteNote => at.Noted?
    case Answer(_) => at.Answering?
    case GiveUp => true
  }

  function Leave(s: State): State { s.(work := None) }

  function Goto(s: State, at: Work): State { s.(work := Some(at)) }

  /** `receipt_from_status`, then the validity of the command, then `resume_command`; a
      command that should have its receipt by now and has none is an error. */
  function Judged(s: State, now: nat, status: Status<Receipt>, valid: bool): State {
    if Replayable(status) then
      s.(work := if status.receipt.value.kind == s.job.kind then Some(Answering(status.receipt.value)) else None)
    else if !valid then Leave(Moved(s, now, Rejected, None, Some("invalid")))
    else if status.state == Received then
      Moved(s, now, Validated, None, None).(
        work := if Attempt(s, now, Validated, None, None).Ok? then Some(Resumed(Validated)) else None)
    else
      s.(work := if status.state in {Validated, Accepted} then Some(Resumed(status.state)) else None,
         broken := s.broken || status.state in {Running, WaitingForDevice, CommandState.Completed})
  }

  /** `find_stable_command_execution`: a durable execution of one's own is taken up. */
  function Sought(s: State, state: CommandState): State {
    if state == Accepted && Factory(s.job.kind) && Own(s).Some? then
      if Own(s).value.mode == s.job.kind then Goto(s, Ready(Own(s).value.shot)) else Leave(s.(broken := true))
    else Goto(s, Selecting(state))
  }

  function Decided(s: State, now: nat, state: CommandState, ok: bool): State {
    var next := if Factory(s.job.kind) then Creating else Noting;
    if !ok then Leave(Moved(s, now, Rejected, None, Some("refused")))
    else if state != Validated then Goto(s, next)
    else if Attempt(s, now, Accepted, None, None).Ok? then Goto(Moved(s, now, Accepted, None, None), next)
    else Leave(s)
  }

  function EngineCalled(s: State, now: nat, ok: bool, reserved: nat): State {
    if !ok then Leave(Moved(s, now, Failed, None, Some("engine")))
    else
      var shot := if s.appShot.Some? then s.appShot.value else reserved;
      Goto(s, Created(shot)).(appShot := Some(shot))
  }

  /** A preparation that exists already is accepted only if it is the same. */
  function PreparedWith(s: State, shot: nat, ok: bool, work: nat): State
    requires s.appShot.Some?
  {
    var mine := Execution(s.appShot.value, s.job.kind, work);
    if Own(s).Some? then (if Own(s).value == mine then Goto(s, Ready(shot)) else Leave(s))
    else if ok then Goto(s, Ready(shot)).(executions := s.executions[Id(s) := mine])
    else Leave(s)
  }

  /** The receipt and the state it comes with, then the answer. */
  function Receipted(s: State, now: nat, next: CommandState, shot: nat): State {
    var receipt := ReceiptOf(s, shot);
    if Attempt(s, now, next, Some(receipt), None).Ok?
    then Goto(Moved(s, now, next, Some(receipt), None), Answering(receipt)) else Leave(s)
  }

  function AfterWork(s: State, now: nat, action: WorkAction): State
    requires s.work.Some? && WorkMay(s, action)
  {
    var at := s.work.value;
    match action
    case Load => Goto(s, Work.Loaded(s.status))
    case Judge(valid) => Judged(s, now, at.status, valid)
    case Seek => Sought(s, at.state)
    case Decide(ok) => Decided(s, now, at.state, ok)
    case CallEngine(ok, reserved) => EngineCalled(s, now, ok, reserved)
    case Prepare(ok, work) => PreparedWith(s, at.shot, ok, work)
    case WriteRunning => Receipted(s, now, Running, at.shot)
    case StoreNote => Goto(s, Noted)
    case WriteNote => Receipted(s, now, Completed, s.job.target)
    case Answer(ok) => Leave(if ok then s.(returned := s.returned + {at.receipt}) else s)
    case GiveUp => Leave(s)
  }

  // ---- The reconciler -----------------------------------------------------

  function Projected(waiting: bool, current: CommandState): CommandState {
    if waiting then WaitingForDevice
    else if current == WaitingForDevice then Running
    else current
  }

  predicate Takes(at: Reconciler, action: ReconcilerAction) {
    match action
    case ReadPhase => at.Idle?
    case ReadCompletion => at.SawPhase?
    case LoadStatus => at.NoCompletion? || at.SawCompletion?
    case Verify(_) => at.Verifying?
    case Publish => at.Projecting? || at.Settling?
    case Abandon => true
  }

  function Set(s: State, q: nat, at: Reconciler): State {
    s.(reconcilers := s.reconcilers[q := at])
  }

  /** What a reconciler that does not publish goes on with. */
  function Next(s: State, at: Reconciler, action: ReconcilerAction): Reconciler
    requires Takes(at, action) && !action.Publish?
  {
    match action
    case ReadPhase => if Own(s).Some? then SawPhase(s.waiting) else Idle
    case ReadCompletion =>
      if s.completion.None? then NoCompletion(at.waiting)
      else if Binds(s, s.completion.value) then SawCompletion(s.completion.value) else Idle
    case LoadStatus =>
      if at.NoCompletion? then
        var projected := Projected(at.waiting, s.status.state);
        if projected != s.status.state then Projecting(projected) else Idle
      else if s.status.receipt.None? || Own(s).None? || s.status.receipt.value.execution != Some(Id(s))
              || s.status.receipt.value.shot != Own(s).value.shot then Idle
      else if at.completion.landed then Verifying
      else if s.status.state.Terminal() then Idle
      else Settling(if at.completion.cancelled then Cancelled else Failed)
    case Verify(ok) => if ok then Settling(Completed) else Idle
    case Abandon =>
      // after five errors in a row the monitor fails the command, unless it has ended
      if s.status.state.Terminal() then Idle else Settling(Failed)
  }

  function Remembering(s: State, action: ReconcilerAction): State {
    s.(verified := s.verified || action == Verify(true),
       gaveUp := s.gaveUp || (action.Abandon? && !s.status.state.Terminal()))
  }

  function AfterReconciler(s: State, now: nat, q: nat, action: ReconcilerAction): State
    requires q in s.reconcilers && Takes(s.reconcilers[q], action)
  {
    var at := s.reconcilers[q];
    if action.Publish? then
      var reason := if at.Settling? && at.target != Completed then Some("ended") else None;
      Set(Moved(s, now, at.target, None, reason), q, Idle)
    else
      Set(Remembering(s, action), q, Next(s, at, action))
  }

  // ---- The monitor's loop -------------------------------------------------

  /** How one reconciliation of a monitor ended. */
  datatype Poll = Ended | Pending | Erred

  datatype Monitored = Done(at: nat) | GaveUp(at: nat) | StillWatching

  const ToleratedErrors: nat := 4

  /** The poll is the fifth error in a row. */
  predicate FifthError(polls: seq<Poll>, i: nat)
    requires i < |polls|
  {
    ToleratedErrors <= i && forall k :: i - ToleratedErrors <= k <= i ==> polls[k].Erred?
  }

  lemma FifthErrorIsTheFifth(polls: seq<Poll>, i: nat)
    requires i < |polls|
    ensures FifthError(polls, i) <==>
      4 <= i && polls[i - 4].Erred? && polls[i - 3].Erred? && polls[i - 2].Erred? && polls[i - 1].Erred? && polls[i].Erred?
  {
  }

  /** `schedule_execution_monitor`: watches until the execution has ended, or gives up at
      the first fifth error in a row. */
  method MonitorExecution(polls: seq<Poll>) returns (end: Monitored)
    ensures end.Done? ==> end.at < |polls| && polls[end.at].Ended?
    ensures end.GaveUp? ==> end.at < |polls| && FifthError(polls, end.at)
    ensures forall i :: 0 <= i < (if end.StillWatching? then |polls| else end.at) ==>
              !polls[i].Ended? && !FifthError(polls, i)
  {
    var errors := 0;
    for i := 0 to |polls|
      invariant errors <= i && errors <= ToleratedErrors
      invariant forall k :: i - errors <= k < i ==> polls[k].Erred?
      invariant errors < i ==> !polls[i - errors - 1].Erred?
      invariant forall k :: 0 <= k < i ==> !polls[k].Ended? && !FifthError(polls, k)
    {
      match polls[i] {
        case Ended => return Done(i);
        case Pending => errors := 0;
        case Erred =>
          if errors < ToleratedErrors {
            errors := errors + 1;
          } else {
            return GaveUp(i);
          }
      }
    }
    return StillWatching;
  }

  // ---- Steps and runs -----------------------------------------------------

  predicate Enabled(s: State, action: Action) {
    match action
    case Enter => s.work.None?
    case Working(work) => s.work.Some? && WorkMay(s, work)
    case Spawn(q) =>
      && q !in s.reconcilers && Factory(s.job.kind)
      && ((s.work.Some? && s.work.value.Answering?) || (s.status.state.InProgress() && s.status.receipt.Some?))
    case Reconciling(q, reconcile) => q in s.reconcilers && Takes(s.reconcilers[q], reconcile)
    case Crash => true
    case MovePhase(_) => Own(s).Some?
    case Complete(_) => Own(s).Some?
    case Reserve(_) => s.appShot.None?
    case PrepareOther(command, _) => command != s.job.command
  }

  function After(s: State, step: Step): State
    requires Enabled(s, step.action)
  {
    match step.action
    case Enter => Goto(s, Entered)
    case Working(work) => AfterWork(s, step.now, work)
    case Spawn(q) => Set(s, q, Idle)
    case Reconciling(q, reconcile) => AfterReconciler(s, step.now, q, reconcile)
    case Crash => s.(work := None, reconcilers := map[])
    case MovePhase(waiting) => s.(waiting := waiting)
    case Complete(completion) => s.(completion := Some(completion), published := s.published + {completion})
    case Reserve(shot) => s.(appShot := Some(shot))
    case PrepareOther(command, execution) => s.(executions := s.executions[s.job.identify(command) := execution])
  }

  /** No other command has this one's execution identity. */
  ghost predicate Separate(s: State) {
    forall command :: command != s.job.command ==> s.job.identify(command) != Id(s)
  }

  /** Just admitted; an evolution's app already has the Shot that the command names. */
  ghost predicate Initial(s: State) {
    && s.status.state == Received && s.status.receipt.None? && s.status.rejection.None?
    && Separate(s) && Own(s).None? && s.completion.None? && s.published == {} && s.work.None? && s.reconcilers == map[]
    && !s.verified && !s.gaveUp && s.returned == {} && !s.broken
    && (s.job.kind.ShotEvolve? ==> s.appShot == Some(s.job.target))
  }

  predicate Legal(s: State, steps: seq<Step>)
    decreases |steps|
  {
    steps != [] ==> Enabled(s, steps[0].action) && Legal(After(s, steps[0]), steps[1..])
  }

  function Run(s: State, steps: seq<Step>): State
    requires Legal(s, steps)
    decreases |steps|
  {
    if steps == [] then s else Run(After(s, steps[0]), steps[1..])
  }

  // ---- The invariant ------------------------------------------------------

  /** The only receipt this command can ever have. */
  predicate RightReceipt(s: State, receipt: Receipt) {
    if Factory(s.job.kind) then Own(s).Some? && receipt == ReceiptOf(s, Own(s).value.shot)
    else receipt == ReceiptOf(s, s.job.target)
  }

  /** Some completion of this execution landed and binds it. */
  predicate HasLanded(s: State) {
    s.verified && exists c :: c in s.published && c.landed && Binds(s, c)
  }

  /** Some completion of this execution binds it, did not land, and was cancelled or not. */
  predicate HasEnded(s: State, cancelled: bool) {
    exists c :: c in s.published && Binds(s, c) && !c.landed && c.cancelled == cancelled
  }

  ghost predicate StatusFits(s: State) {
    && WellFormed(s.status) && Separate(s)
    && (s.job.kind.ShotEvolve? ==> s.appShot == Some(s.job.target))
    && (s.status.state in {Failed, Cancelled} ==> s.status.rejection.Some?)
    && (s.status.receipt.Some? && s.status.state == Cancelled ==> HasEnded(s, true))
    && (s.status.receipt.Some? && s.status.state == Failed ==> HasEnded(s, false) || s.gaveUp)
    && (Own(s).Some? ==> s.appShot == Some(Own(s).value.shot) && Own(s).value.mode == s.job.kind)
    && (Own(s).Some? ==> !(s.status.state in {Received, Validated}))
    && (s.status.receipt.Some? ==> RightReceipt(s, s.status.receipt.value) && !(s.status.state in {Received, Validated, Accepted, Rejected}))
    && (s.status.state.InProgress() ==> s.status.receipt.Some?)
    && (s.completion.Some? ==> s.completion.value in s.published)
    && (s.status.state == Completed && Factory(s.job.kind) ==> HasLanded(s))
    && !s.broken
  }

  /** Before there is a receipt only the claim's holder changes the status. */
  predicate WorkFits(s: State, at: Work) {
    match at
    case Entered => true
    case Loaded(status) =>
      if status.receipt.Some? then s.status.receipt == status.receipt else s.status == status
    case Resumed(state) => s.status.receipt.None? && s.status.state == state && state in {Validated, Accepted}
    case Selecting(state) =>
      && s.status.receipt.None? && s.status.state == state && state in {Validated, Accepted}
      && (Factory(s.job.kind) ==> Own(s).None?)
    case Creating => s.status.receipt.None? && s.status.state == Accepted && Factory(s.job.kind) && Own(s).None?
    case Created(shot) =>
      && s.status.receipt.None? && s.status.state == Accepted && Factory(s.job.kind)
      && Own(s).None? && s.appShot == Some(shot)
    case Ready(shot) =>
      && s.status.receipt.None? && s.status.state == Accepted && Factory(s.job.kind)
      && Own(s).Some? && Own(s).value.shot == shot
    case Noting => s.status.receipt.None? && s.status.state == Accepted && !Factory(s.job.kind)
    case Noted => s.status.receipt.None? && s.status.state == Accepted && !Factory(s.job.kind)
    case Answering(receipt) => s.status.receipt == Some(receipt)
  }

  predicate ReconcilerFits(s: State, at: Reconciler) {
    && s.status.receipt.Some? && Factory(s.job.kind)
    && (at.SawCompletion? ==> at.completion in s.published && Binds(s, at.completion))
    && (at.Verifying? ==> exists c :: c in s.published && c.landed && Binds(s, c))
    && (at.Projecting? ==> at.target.InProgress())
    && (at.Settling? ==> at.target in {Completed, Failed, Cancelled})
    && (at.Settling? && at.target == Completed ==> HasLanded(s))
    && (at.Settling? && at.target == Cancelled ==> HasEnded(s, true))
    && (at.Settling? && at.target == Failed ==> HasEnded(s, false) || s.gaveUp)
  }

  ghost predicate ServiceInvariant(s: State) {
    && StatusFits(s)
    && (s.work.Some? ==> WorkFits(s, s.work.value))
    && (forall q :: q in s.reconcilers ==> ReconcilerFits(s, s.reconcilers[q]))
    && (forall receipt :: receipt in s.returned ==> RightReceipt(s, receipt))
  }

  /** The processor moves on and nothing durable changes. */
  lemma WorkMoves(s: State, work: Option<Work>)
    requires ServiceInvariant(s) && (work.Some? ==> WorkFits(s, work.value))
    ensures ServiceInvariant(s.(work := work))
  {
  }

  lemma NoReconcilers(s: State)
    requires ServiceInvariant(s) && s.status.receipt.None?
    ensures s.reconcilers == map[]
  {
    assert forall q :: q !in s.reconcilers;
  }

  /** A transition that the claim's holder makes before there is a receipt. */
  lemma HolderMoves(s: State, now: nat, next: CommandState, receipt: Option<Receipt>, reason: Option<string>, work: Option<Work>)
    requires ServiceInvariant(s) && s.status.receipt.None?
    requires next in {Validated, Accepted, Running, Completed, Rejected, Failed}
    requires next in {Running, Completed} <==> receipt.Some?
    requires receipt.Some? ==> RightReceipt(s, receipt.value)
    requires next == Validated ==> Own(s).None?
    requires next == Completed ==> !Factory(s.job.kind)
    requires next == Running ==> Factory(s.job.kind)
    requires next == Failed ==> reason.Some?
    requires work.Some? ==> Attempt(s, now, next, receipt, reason).Ok? && WorkFits(Moved(s, now, next, receipt, reason), work.value)
    ensures ServiceInvariant(Moved(s, now, next, receipt, reason).(work := work))
  {
    var outcome := Attempt(s, now, next, receipt, reason);
    if outcome.Ok? {
      TransitionKeeps(s.status, Request(next, receipt, reason, now));
    }
    NoReconcilers(s);
  }

  /** Refusing a command, whatever it has published. */
  lemma RejectMoves(s: State, now: nat, reason: string)
    requires ServiceInvariant(s) && reason != ""
    ensures ServiceInvariant(Leave(Moved(s, now, Rejected, None, Some(reason))))
  {
    if s.status.receipt.None? {
      HolderMoves(s, now, Rejected, None, Some(reason), None);
    } else {
      RejectAnswered(s, now, reason);
    }
  }

  lemma RejectAnswered(s: State, now: nat, reason: string)
    requires ServiceInvariant(s) && s.status.receipt.Some? && reason != ""
    ensures ServiceInvariant(Leave(Moved(s, now, Rejected, None, Some(reason))))
  {
    if Attempt(s, now, Rejected, None, Some(reason)).Ok? {
      TransitionKeeps(s.status, Request(Rejected, None, Some(reason), now));
    }
  }

  lemma JudgeStep(s: State, now: nat, status: Status<Receipt>, valid: bool)
    requires ServiceInvariant(s) && WorkFits(s, Work.Loaded(status))
    ensures ServiceInvariant(Judged(s, now, status, valid))
  {
    if Replayable(status) {
      WorkMoves(s, if status.receipt.value.kind == s.job.kind then Some(Answering(status.receipt.value)) else None);
    } else if !valid {
      RejectMoves(s, now, "invalid");
    } else if status.state == Received {
      HolderMoves(s, now, Validated, None, None, Some(Resumed(Validated)));
    } else {
      WorkMoves(s, if status.state in {Validated, Accepted} then Some(Resumed(status.state)) else None);
    }
  }

  lemma WorkStep(s: State, now: nat, action: WorkAction)
    requires ServiceInvariant(s) && s.work.Some? && WorkMay(s, action)
    ensures ServiceInvariant(AfterWork(s, now, action))
  {
    if action.Load? || action.Seek? || action.StoreNote? || action.GiveUp? {
      WorkMoves(s, AfterWork(s, now, action).work);
    } else if action.Judge? {
      JudgeStep(s, now, s.work.value.status, action.valid);
    } else if action.Decide? {
      DecideStep(s, now, s.work.value.state, action.ok);
    } else if action.WriteRunning? {
      WriteStep(s, now, Running, s.work.value.shot);
    } else if action.WriteNote? {
      WriteStep(s, now, CommandState.Completed, s.job.target);
    } else {
      EngineStep(s, now, action);
    }
  }

  lemma DecideStep(s: State, now: nat, state: CommandState, ok: bool)
    requires ServiceInvariant(s) && WorkFits(s, Selecting(state))
    ensures ServiceInvariant(Decided(s, now, state, ok))
  {
    var next := if Factory(s.job.kind) then Creating else Noting;
    if !ok {
      RejectMoves(s, now, "refused");
    } else if state != Validated {
      WorkMoves(s, Some(next));
    } else {
      HolderMoves(s, now, Accepted, None, None, Some(next));
    }
  }

  lemma WriteStep(s: State, now: nat, next: CommandState, shot: nat)
    requires ServiceInvariant(s) && next in {Running, CommandState.Completed}
    requires WorkFits(s, if next == Running then Ready(shot) else Noted)
    requires next == CommandState.Completed ==> shot == s.job.target
    ensures ServiceInvariant(Receipted(s, now, next, shot))
  {
    var receipt := ReceiptOf(s, shot);
    HolderMoves(s, now, next, Some(receipt), None, Some(Answering(receipt)));
  }

  lemma EngineStep(s: State, now: nat, action: WorkAction)
    requires ServiceInvariant(s) && s.work.Some? && WorkMay(s, action)
    requires action.CallEngine? || action.Prepare? || action.Answer?
    ensures ServiceInvariant(AfterWork(s, now, action))
  {
    if action.CallEngine? {
      CallStep(s, now, action.ok, action.reserved);
    } else if action.Prepare? {
      PrepareStep(s, s.work.value.shot, action.ok, action.work);
    } else if action.ok {
      AnswerStep(s, s.work.value.receipt);
    } else {
      WorkMoves(s, None);
    }
  }

  lemma AnswerStep(s: State, receipt: Receipt)
    requires ServiceInvariant(s) && s.status.receipt == Some(receipt)
    ensures ServiceInvariant(Leave(s.(returned := s.returned + {receipt})))
  {
  }

  lemma CallStep(s: State, now: nat, ok: bool, reserved: nat)
    requires ServiceInvariant(s) && WorkFits(s, Creating)
    ensures ServiceInvariant(EngineCalled(s, now, ok, reserved))
  {
    if !ok {
      HolderMoves(s, now, Failed, None, Some("engine"), None);
    } else {
      NoReconcilers(s);
    }
  }

  lemma PrepareStep(s: State, shot: nat, ok: bool, work: nat)
    requires ServiceInvariant(s) && WorkFits(s, Created(shot))
    ensures ServiceInvariant(PreparedWith(s, shot, ok, work))
  {
    NoReconcilers(s);
  }

  /** Once there is a receipt the status moves without anything else noticing. */
  lemma StatusMoves(s: State, status: Status<Receipt>)
    requires ServiceInvariant(s) && s.status.receipt.Some? && Factory(s.job.kind)
    requires WellFormed(status) && status.receipt == s.status.receipt
    requires status.state.InProgress() || status.state in {CommandState.Completed, Failed, Cancelled}
    requires status.state == CommandState.Completed ==> HasLanded(s)
    requires status.state == Cancelled ==> HasEnded(s, true)
    requires status.state == Failed ==> HasEnded(s, false) || s.gaveUp
    requires status.state in {Failed, Cancelled} ==> status.rejection.Some?
    ensures ServiceInvariant(s.(status := status))
  {
    var after := s.(status := status);
    assert s.work.Some? ==> WorkFits(after, s.work.value);
    assert forall q :: q in s.reconcilers ==> ReconcilerFits(s, s.reconcilers[q]) && ReconcilerFits(after, s.reconcilers[q]);
  }

  /** A transition a reconciler makes: there is a receipt, and it stays. */
  lemma ReconcilerMoves(s: State, now: nat, target: CommandState, reason: Option<string>)
    requires ServiceInvariant(s) && s.status.receipt.Some? && Factory(s.job.kind)
    requires target.InProgress() || target in {CommandState.Completed, Failed, Cancelled}
    requires target == CommandState.Completed ==> HasLanded(s)
    requires target == Cancelled ==> HasEnded(s, true)
    requires target == Failed ==> HasEnded(s, false) || s.gaveUp
    requires target in {Failed, Cancelled} ==> reason.Some?
    ensures ServiceInvariant(Moved(s, now, target, None, reason))
    ensures Moved(s, now, target, None, reason).status.receipt == s.status.receipt
  {
    var outcome := Attempt(s, now, target, None, reason);
    if outcome.Ok? {
      TransitionKeeps(s.status, Request(target, None, reason, now));
      StatusMoves(s, outcome.value);
    }
  }

  lemma ReconcilerGoes(s: State, q: nat, at: Reconciler)
    requires ServiceInvariant(s) && ReconcilerFits(s, at)
    ensures ServiceInvariant(Set(s, q, at))
  {
    var after := Set(s, q, at);
    assert s.work.Some? ==> WorkFits(after, s.work.value);
    forall r | r in after.reconcilers ensures ReconcilerFits(after, after.reconcilers[r]) {
      assert r != q ==> ReconcilerFits(s, s.reconcilers[r]);
    }
  }

  lemma ReconcilerStep(s: State, now: nat, q: nat, action: ReconcilerAction)
    requires ServiceInvariant(s) && q in s.reconcilers && Takes(s.reconcilers[q], action)
    ensures ServiceInvariant(AfterReconciler(s, now, q, action))
  {
    if action.Publish? {
      PublishStep(s, now, q);
    } else {
      var next := Next(s, s.reconcilers[q], action);
      var read := Remembering(s, action);
      RememberingFits(s, action);
      NextFits(s, s.reconcilers[q], action);
      ReconcilerGoes(read, q, next);
    }
  }

  lemma NextFits(s: State, at: Reconciler, action: ReconcilerAction)
    requires ServiceInvariant(s) && ReconcilerFits(s, at) && Takes(at, action) && !action.Publish?
    ensures ReconcilerFits(Remembering(s, action), Next(s, at, action))
  {
  }

  lemma PublishStep(s: State, now: nat, q: nat)
    requires ServiceInvariant(s) && q in s.reconcilers && Takes(s.reconcilers[q], ReconcilerAction.Publish)
    ensures ServiceInvariant(AfterReconciler(s, now, q, ReconcilerAction.Publish))
  {
    var at := s.reconcilers[q];
    var reason := if at.Settling? && at.target != Completed then Some("ended") else None;
    ReconcilerMoves(s, now, at.target, reason);
    ReconcilerGoes(Moved(s, now, at.target, None, reason), q, Idle);
  }

  lemma RememberingFits(s: State, action: ReconcilerAction)
    requires ServiceInvariant(s)
    ensures ServiceInvariant(Remembering(s, action))
  {
  }

  lemma WorldStep(s: State, step: Step)
    requires ServiceInvariant(s) && Enabled(s, step.action)
    requires step.action.MovePhase? || step.action.Complete? || step.action.Reserve? || step.action.PrepareOther?
    ensures ServiceInvariant(After(s, step))
  {
    if step.action.PrepareOther? {
      OtherStep(s, step.action.command, step.action.execution);
    } else if step.action.Complete? {
      CompleteStep(s, step.action.completion);
    }
  }

  lemma OtherStep(s: State, command: nat, execution: Execution)
    requires ServiceInvariant(s) && command != s.job.command
    ensures ServiceInvariant(s.(executions := s.executions[s.job.identify(command) := execution]))
  {
  }

  lemma CompleteStep(s: State, completion: Completion)
    requires ServiceInvariant(s)
    ensures ServiceInvariant(s.(completion := Some(completion), published := s.published + {completion}))
  {
  }

  lemma ServiceStep(s: State, step: Step)
    requires ServiceInvariant(s) && Enabled(s, step.action)
    ensures ServiceInvariant(After(s, step))
  {
    if step.action.Working? {
      WorkStep(s, step.now, step.action.work);
    } else if step.action.Reconciling? {
      ReconcilerStep(s, step.now, step.action.q, step.action.reconcile);
    } else if step.action.Enter? || step.action.Spawn? || step.action.Crash? {
      ProcessStep(s, step);
    } else {
      WorldStep(s, step);
    }
  }

  /** Processors enter, monitors start, the service crashes. */
  lemma ProcessStep(s: State, step: Step)
    requires ServiceInvariant(s) && Enabled(s, step.action)
    requires step.action.Enter? || step.action.Spawn? || step.action.Crash?
    ensures ServiceInvariant(After(s, step))
  {
    if step.action.Enter? {
      WorkMoves(s, Some(Entered));
    } else if step.action.Spawn? {
      ReconcilerGoes(s, step.action.q, Idle);
    }
  }

  lemma {:induction false} ServiceRun(s: State, steps: seq<Step>)
    requires ServiceInvariant(s) && Legal(s, steps)
    ensures ServiceInvariant(Run(s, steps))
    decreases |steps|
  {
    if steps != [] {
      ServiceStep(s, steps[0]);
      ServiceRun(After(s, steps[0]), steps[1..]);
    }
  }

  ghost predicate Reachable(s: State) {
    exists start, steps: seq<Step> :: Initial(start) && Legal(start, steps) && Run(start, steps) == s
  }

  lemma ReachedInvariant(s: State)
    requires Reachable(s)
    ensures ServiceInvariant(s)
  {
    var start, steps: seq<Step> :| Initial(start) && Legal(start, steps) && Run(start, steps) == s;
    ServiceRun(start, steps);
  }

  // ---- Main results -------------------------------------------------------

  /** Every receipt ever returned for the command, and the one in its status, are the same
      receipt of its own kind, that of its one durable execution or of its note. */
  lemma ReturnedReceiptsAgree(s: State, first: Receipt, second: Receipt)
    requires Reachable(s) && first in s.returned
    requires second in s.returned || s.status.receipt == Some(second)
    ensures first == second && first.kind == s.job.kind
    ensures !s.job.kind.ShotCreate? ==> first.shot == s.job.target
    ensures s.job.kind.ShotCreate? ==> s.appShot == Some(first.shot)
    ensures Factory(s.job.kind) ==> Own(s).Some? && Own(s).value.shot == first.shot && first.execution == Some(Id(s))
  {
    ReachedInvariant(s);
  }

  /** Once the command's execution is durable, no processor calls the engine's create or
      evolve for it again. */
  lemma EngineCalledOnlyBeforeExecution(s: State, step: Step)
    requires Reachable(s) && Enabled(s, step.action) && step.action.Working? && step.action.work.CallEngine?
    ensures Own(s).None? && s.status.state == Accepted
  {
    ReachedInvariant(s);
  }

  /** A running, waiting or completed command carries a receipt of its own kind, so no
      processor and no recovery meets such a state without its stable receipt; any other
      ended command carries its reason. */
  lemma StateCarriesItsReceipt(s: State)
    requires Reachable(s)
    ensures s.status.state.InProgress() || s.status.state == Completed ==>
      s.status.receipt.Some? && s.status.receipt.value.kind == s.job.kind
    ensures s.status.state in {Rejected, Failed, Cancelled} ==> s.status.rejection.Some?
    ensures !s.broken
  {
    ReachedInvariant(s);
  }

  /** A completed creation or evolution has had a landed completion that binds its durable
      preparation, field by field, a Version that was verified, and the receipt of that
      execution; if its completion was never replaced, it is that completion. */
  lemma CompletedMeansLanded(s: State)
    requires Reachable(s) && s.status.state == Completed && Factory(s.job.kind)
    ensures HasLanded(s)
    ensures s.completion.Some? && s.published == {s.completion.value} ==>
      s.completion.value.landed && Binds(s, s.completion.value)
    ensures s.status.receipt == Some(ReceiptOf(s, Own(s).value.shot))
  {
    ReachedInvariant(s);
  }

  /** A creation or evolution that has its receipt is cancelled only by a cancelled
      completion of its own execution, and failed only by one that neither landed nor was
      cancelled, or by a monitor that gave up. */
  lemma EndedMeansItsCompletion(s: State)
    requires Reachable(s) && s.status.receipt.Some? && Factory(s.job.kind)
    ensures s.status.state == Cancelled ==>
      exists c :: c in s.published && Binds(s, c) && !c.landed && c.cancelled
    ensures s.status.state == Failed ==>
      s.gaveUp || exists c :: c in s.published && Binds(s, c) && !c.landed && !c.cancelled
    ensures s.status.state != Rejected
  {
    ReachedInvariant(s);
  }

  /** A step that reads, and changes nothing but where the reconciler stands. */
  function Reading(s: State, q: nat, action: ReconcilerAction): State
    requires q in s.reconcilers && Takes(s.reconcilers[q], action) && (action.ReadPhase? || action.ReadCompletion? || action.LoadStatus?)
  {
    Set(s, q, Next(s, s.reconcilers[q], action))
  }

  lemma ReadingIsAStep(s: State, now: nat, q: nat, action: ReconcilerAction)
    requires q in s.reconcilers && Takes(s.reconcilers[q], action) && (action.ReadPhase? || action.ReadCompletion? || action.LoadStatus?)
    ensures Reading(s, q, action) == AfterReconciler(s, now, q, action)
  {
  }

  /** One undisturbed reconciliation: it stops where its reading gives it nothing to do. */
  function Reconciled(s: State, now: nat, q: nat): State
    requires q in s.reconcilers && s.reconcilers[q].Idle?
  {
    var phased := Reading(s, q, ReadPhase);
    if phased.reconcilers[q].Idle? then phased
    else
      var found := Reading(phased, q, ReadCompletion);
      if found.reconcilers[q].Idle? then found else Finished(Reading(found, q, LoadStatus), now, q)
  }

  function Finished(s: State, now: nat, q: nat): State
    requires q in s.reconcilers
  {
    var checked := if s.reconcilers[q].Verifying? then AfterReconciler(s, now, q, Verify(true)) else s;
    if checked.reconcilers[q].Projecting? || checked.reconcilers[q].Settling?
    then AfterReconciler(checked, now, q, ReconcilerAction.Publish) else checked
  }

  /** The state the command gets from what is on disk: its completion decides if it binds
      the preparation; without one, the phase says whether the iPhone is awaited. */
  function Outcome(s: State): CommandState {
    if s.completion.None? then (if s.waiting then WaitingForDevice else Running)
    else if !Binds(s, s.completion.value) then s.status.state
    else if s.completion.value.landed then CommandState.Completed
    else if s.completion.value.cancelled then Cancelled
    else Failed
  }

  /** The journal takes from a running command whatever reconciliation publishes. */
  lemma PublishedAsAsked(s: State, now: nat, q: nat)
    requires WellFormed(s.status) && s.status.receipt.Some? && s.status.state.InProgress() && q in s.reconcilers
    requires s.reconcilers[q].Projecting? || s.reconcilers[q].Settling?
    requires s.reconcilers[q].target in {Running, WaitingForDevice, CommandState.Completed, Failed, Cancelled}
    requires s.reconcilers[q].Projecting? ==> s.reconcilers[q].target != s.status.state
    ensures AfterReconciler(s, now, q, ReconcilerAction.Publish).status.state == s.reconcilers[q].target
  {
  }

  /** After the phase and the completion are read, only the status is left to load. */
  function AfterReading(s: State): Reconciler {
    if s.completion.None? then NoCompletion(s.waiting)
    else if Binds(s, s.completion.value) then SawCompletion(s.completion.value)
    else Idle
  }

  lemma SetTwice(s: State, q: nat, first: Reconciler, second: Reconciler)
    ensures Set(Set(s, q, first), q, second) == Set(s, q, second)
  {
    assert s.reconcilers[q := first][q := second] == s.reconcilers[q := second];
  }

  lemma ReconciledReads(s: State, now: nat, q: nat)
    requires Own(s).Some? && q in s.reconcilers && s.reconcilers[q].Idle?
    ensures if AfterReading(s).Idle? then Reconciled(s, now, q) == Set(s, q, Idle)
            else Reconciled(s, now, q) == Finished(Set(s, q, Next(s, AfterReading(s), LoadStatus)), now, q)
  {
    var phased := Reading(s, q, ReadPhase);
    assert phased == Set(s, q, SawPhase(s.waiting));
    SetTwice(s, q, SawPhase(s.waiting), AfterReading(s));
    var found := Reading(phased, q, ReadCompletion);
    assert found == Set(s, q, AfterReading(s));
    if !AfterReading(s).Idle? {
      var loaded := Next(s, AfterReading(s), LoadStatus);
      SetTwice(s, q, AfterReading(s), loaded);
      assert Reading(found, q, LoadStatus) == Set(s, q, loaded);
    }
  }

  /** The rest of a reconciliation that has decided on a state, perhaps after verifying. */
  lemma FinishedExactly(s: State, now: nat, q: nat, at: Reconciler)
    requires WellFormed(s.status) && s.status.receipt.Some? && q in s.reconcilers && s.status.state.InProgress()
    requires at.Verifying? || at.Idle? || (at.Projecting? && at.target.InProgress() && at.target != s.status.state)
             || (at.Settling? && at.target in {Failed, Cancelled})
    ensures Finished(Set(s, q, at), now, q).status.state ==
            if at.Verifying? then CommandState.Completed else if at.Idle? then s.status.state else at.target
  {
    if at.Verifying? {
      var verified := AfterReconciler(Set(s, q, at), now, q, Verify(true));
      PublishedAsAsked(verified, now, q);
    } else if !at.Idle? {
      PublishedAsAsked(Set(s, q, at), now, q);
    }
  }

  /** An undisturbed reconciliation of a running command, whose Version verifies if it
      landed, leaves exactly that state. */
  lemma ReconciledExactly(s: State, now: nat, q: nat)
    requires Reachable(s) && q in s.reconcilers && s.reconcilers[q].Idle? && s.status.state.InProgress()
    ensures Reconciled(s, now, q).status.state == Outcome(s)
  {
    ReachedInvariant(s);
    assert ReconcilerFits(s, s.reconcilers[q]);
    ReconciledReads(s, now, q);
    if !AfterReading(s).Idle? {
      LoadedExactly(s);
      FinishedExactly(s, now, q, Next(s, AfterReading(s), LoadStatus));
    }
  }

  /** What loading the status leaves to do. */
  lemma LoadedExactly(s: State)
    requires StatusFits(s) && s.status.state.InProgress() && Factory(s.job.kind) && !AfterReading(s).Idle? && Own(s).Some?
    ensures var at := Next(s, AfterReading(s), LoadStatus);
      if at.Verifying? then Outcome(s) == CommandState.Completed
      else if at.Idle? then Outcome(s) == s.status.state
      else if at.Projecting? then at.target == Outcome(s) && at.target.InProgress() && at.target != s.status.state
      else at.Settling? && at.target == Outcome(s) && at.target in {Failed, Cancelled}
  {
    if s.completion.None? {
    } else {
      assert RightReceipt(s, s.status.receipt.value);
    }
  }

  lemma DecidedAs(s: State, now: nat, state: CommandState, ok: bool)
    requires s.status.receipt.None? && s.status.state == state && state in {Validated, Accepted}
    ensures Decided(s, now, state, ok).status.state == if ok then Accepted else Rejected
  {
    if ok && state == Validated {
      assert Attempt(s, now, Accepted, None, None).Ok?;
    } else if !ok {
      assert Attempt(s, now, Rejected, None, Some("refused")).Ok?;
    }
  }

  lemma EngineFailedAs(s: State, now: nat, reserved: nat)
    requires s.status.receipt.None? && s.status.state == Accepted
    ensures EngineCalled(s, now, false, reserved).status.state == Failed
  {
  }

  lemma ReceiptedAs(s: State, now: nat, next: CommandState, shot: nat)
    requires s.status.receipt.None? && s.status.state == Accepted && next in {Running, CommandState.Completed}
    ensures var after := Receipted(s, now, next, shot).status; after.state == next && after.receipt == Some(ReceiptOf(s, shot))
  {
    if next == Running {
      assert Attempt(s, now, Running, Some(ReceiptOf(s, shot)), None).Ok?;
    } else {
      assert Attempt(s, now, CommandState.Completed, Some(ReceiptOf(s, shot)), None).Ok?;
    }
  }

  /** What a processor publishes at each turn, never refused by the journal: an admissible
      command is accepted, any other rejected, one that the engine fails on is failed, and
      the receipt comes with the state it is for. */
  lemma ProcessorPublishes(s: State, now: nat, action: WorkAction)
    requires Reachable(s) && s.work.Some? && WorkMay(s, action)
    ensures var after := AfterWork(s, now, action).status;
      && (action.Decide? ==> after.state == if action.ok then Accepted else Rejected)
      && (action.CallEngine? && !action.ok ==> after.state == Failed)
      && (action.WriteRunning? ==> after.state == Running && after.receipt.Some?)
      && (action.WriteNote? ==> after.state == CommandState.Completed && after.receipt.Some?)
  {
    ReachedInvariant(s);
    if action.Decide? {
      DecidedAs(s, now, s.work.value.state, action.ok);
    } else if action.CallEngine? && !action.ok {
      EngineFailedAs(s, now, action.reserved);
    } else if action.WriteRunning? {
      ReceiptedAs(s, now, Running, s.work.value.shot);
    } else if action.WriteNote? {
      ReceiptedAs(s, now, CommandState.Completed, s.job.target);
    }
  }

  /** A processor answers from the stored receipt exactly when there is one and the command
      was not rejected, failed or cancelled. */
  lemma AnsweredExactly(s: State, now: nat, valid: bool, receipt: Receipt)
    requires Reachable(s) && s.work.Some? && WorkMay(s, Judge(valid))
    ensures var status := s.work.value.status;
      AfterWork(s, now, Judge(valid)).work == Some(Answering(receipt)) <==>
        status.receipt == Some(receipt) && !(status.state in {Rejected, Failed, Cancelled})
  {
    ReachedInvariant(s);
    JudgedAnswers(s, now, s.work.value.status, valid, receipt);
  }

  lemma JudgedAnswers(s: State, now: nat, status: Status<Receipt>, valid: bool, receipt: Receipt)
    requires status.receipt.Some? ==> status.receipt.value.kind == s.job.kind
    ensures Judged(s, now, status, valid).work == Some(Answering(receipt)) <==>
            status.receipt == Some(receipt) && !(status.state in {Rejected, Failed, Cancelled})
  {
    if Replayable(status) {
    } else if !valid {
    } else if status.state == Received {
    } else {
    }
  }

  /** Without a receipt it goes on exactly with a valid command that has not begun to run,
      validating one just received, and rejects an invalid one. */
  lemma ResumedExactly(s: State, now: nat, valid: bool)
    requires Reachable(s) && s.work.Some? && WorkMay(s, Judge(valid)) && s.work.value.status.receipt.None?
    ensures var status, after := s.work.value.status, AfterWork(s, now, Judge(valid));
      && (after.work.Some? <==> valid && status.state in {Received, Validated, Accepted})
      && (valid && status.state == Received ==> after.status.state == Validated)
      && (!valid && status.state in {Received, Validated, Accepted} ==> after.status.state == Rejected)
  {
    ReachedInvariant(s);
    JudgedFresh(s, now, s.work.value.status, valid);
  }

  lemma JudgedFresh(s: State, now: nat, status: Status<Receipt>, valid: bool)
    requires s.status == status && status.receipt.None?
    ensures var after := Judged(s, now, status, valid);
      && (after.work.Some? <==> valid && status.state in {Received, Validated, Accepted})
      && (valid && status.state == Received ==> after.status.state == Validated)
      && (!valid && status.state in {Received, Validated, Accepted} ==> after.status.state == Rejected)
  {
    if !valid && status.state in {Received, Validated, Accepted} {
      assert Attempt(s, now, Rejected, None, Some("invalid")).Ok?;
    } else if valid && status.state == Received {
      assert Attempt(s, now, Validated, None, None).Ok?;
    }
  }

  /** The Shot an execution is for is chosen once: an evolution's is the one it names, and
      a reserved one is taken up by every later attempt. */
  lemma {:induction false} ShotIsStable(s: State, steps: seq<Step>)
    requires Legal(s, steps) && s.appShot.Some?
    ensures Run(s, steps).appShot == s.appShot
    decreases |steps|
  {
    if steps != [] {
      StepKeepsShot(s, steps[0]);
      ShotIsStable(After(s, steps[0]), steps[1..]);
    }
  }

  /** A preparation that is made is the one asked for: this Shot, this kind, this work. */
  lemma PreparedAsAsked(s: State, now: nat, work: nat)
    requires Reachable(s) && s.work.Some? && WorkMay(s, Prepare(true, work))
    ensures Own(AfterWork(s, now, Prepare(true, work))) == Some(Execution(s.work.value.shot, s.job.kind, work))
  {
    ReachedInvariant(s);
  }

  /** Preparing again changes nothing: it goes on exactly if the durable preparation is the
      one asked for. */
  lemma PreparedAgainExactly(s: State, shot: nat, ok: bool, work: nat)
    requires s.appShot.Some? && Own(s).Some?
    ensures var after := PreparedWith(s, shot, ok, work);
      after == s.(work := if Own(s).value == Execution(s.appShot.value, s.job.kind, work) then Some(Ready(shot)) else None)
  {
  }

  /** A durable execution, once there, is never replaced, whatever other commands prepare. */
  lemma {:induction false} ExecutionIsStable(s: State, steps: seq<Step>)
    requires Legal(s, steps) && Separate(s) && Own(s).Some?
    ensures Own(Run(s, steps)) == Own(s)
    decreases |steps|
  {
    if steps != [] {
      StepKeepsExecution(s, steps[0]);
      ExecutionIsStable(After(s, steps[0]), steps[1..]);
    }
  }

  lemma StepKeepsExecution(s: State, step: Step)
    requires Enabled(s, step.action) && Separate(s) && Own(s).Some?
    ensures Own(After(s, step)) == Own(s) && Separate(After(s, step)) && Id(After(s, step)) == Id(s)
  {
    if step.action.Working? {
      WorkKeeps(s, step.now, step.action.work);
    } else if step.action.Reconciling? {
      ReconcilerKeeps(s, step.now, step.action.q, step.action.reconcile);
    }
  }

  lemma StepKeepsShot(s: State, step: Step)
    requires Enabled(s, step.action) && s.appShot.Some?
    ensures After(s, step).appShot == s.appShot
  {
    if step.action.Working? {
      WorkKeeps(s, step.now, step.action.work);
    } else if step.action.Reconciling? {
      ReconcilerKeeps(s, step.now, step.action.q, step.action.reconcile);
    }
  }

  /** Same command, same Shot, same durable preparations. */
  ghost predicate SameBase(s: State, next: State) {
    next.job == s.job && next.appShot == s.appShot && next.executions == s.executions
  }

  lemma WorkKeeps(s: State, now: nat, action: WorkAction)
    requires s.work.Some? && WorkMay(s, action)
    ensures var next := AfterWork(s, now, action);
      && next.job == s.job && (s.appShot.Some? ==> next.appShot == s.appShot)
      && (Own(s).Some? ==> next.executions == s.executions)
  {
    var at := s.work.value;
    if action.Judge? {
      JudgeKeeps(s, now, at.status, action.valid);
    } else if action.Decide? {
      DecideKeeps(s, now, at.state, action.ok);
    } else if action.CallEngine? {
      CallKeeps(s, now, action.ok, action.reserved);
    } else if action.WriteRunning? {
      ReceiptKeeps(s, now, Running, at.shot);
    } else if action.WriteNote? {
      ReceiptKeeps(s, now, CommandState.Completed, s.job.target);
    } else if action.Prepare? {
      PrepareKeeps(s, at.shot, action.ok, action.work);
    } else if action.Seek? {
      SeekKeeps(s, at.state);
    }
  }

  lemma PrepareKeeps(s: State, shot: nat, ok: bool, work: nat)
    requires s.appShot.Some?
    ensures var next := PreparedWith(s, shot, ok, work);
      next.job == s.job && next.appShot == s.appShot && (Own(s).Some? ==> next.executions == s.executions)
  {
    if Own(s).Some? {
      assert PreparedWith(s, shot, ok, work) == s.(work := PreparedWith(s, shot, ok, work).work);
    } else if ok {
    } else {
    }
  }

  lemma SeekKeeps(s: State, state: CommandState)
    ensures SameBase(s, Sought(s, state))
  {
  }

  lemma JudgeKeeps(s: State, now: nat, status: Status<Receipt>, valid: bool)
    ensures SameBase(s, Judged(s, now, status, valid))
  {
    if Replayable(status) {
    } else if !valid {
    } else if status.state == Received {
    } else {
    }
  }

  lemma DecideKeeps(s: State, now: nat, state: CommandState, ok: bool)
    ensures SameBase(s, Decided(s, now, state, ok))
  {
  }

  lemma CallKeeps(s: State, now: nat, ok: bool, reserved: nat)
    ensures var next := EngineCalled(s, now, ok, reserved);
      next.job == s.job && next.executions == s.executions && (s.appShot.Some? ==> next.appShot == s.appShot)
  {
  }

  lemma ReceiptKeeps(s: State, now: nat, next: CommandState, shot: nat)
    ensures SameBase(s, Receipted(s, now, next, shot))
  {
  }

  lemma ReconcilerKeeps(s: State, now: nat, q: nat, action: ReconcilerAction)
    requires q in s.reconcilers && Takes(s.reconcilers[q], action)
    ensures SameBase(s, AfterReconciler(s, now, q, action))
  {
  }
}
