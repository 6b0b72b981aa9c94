/** Launchers, runners, their descendants and the claim probe of one execution, as a step
    relation over any number of processes and the execution's durable record. Process
    numbers are reused freely. `run.claim` is held by the processes that share its open
    description, `runner.lock` by the one launcher inside `ensure_background_runner`.
    Every durable write is a step of its own, and a process may end between any two. */
module RunnerProtocol {
  import opened Wrappers
  import opened ExecutionPhases
  import opened ExecutionRecord
  import Lifecycle = ExecutionLifecycle

  /** Where a launcher is inside `ensure_background_runner`; `todo` is what it has yet to
      write. */
  datatype LauncherStage =
    | Waiting
    | Locked
    | Loaded(phase: Phase)
    | Checked(phase: Phase, alive: bool)
    | Probing(phase: Phase, alive: bool)
    | Decided(phase: Phase, busy: bool)
    | Starting(todo: seq<Write>)
    | Resuming
    | HandingOff(child: nat, resuming: bool)
    | Reverting(todo: seq<Write>)
    | Finalizing(todo: seq<Write>)

  /** Where a runner is inside `run` and `run_shot`; `mine` is the phase it remembers. */
  datatype RunnerStage =
    | Booting
    | Arrived(seen: Phase)
    | Beaten
    | Claimed(seen: Phase)
    | Recorded(seen: Phase)
    | Working(mine: Phase, todo: seq<Write>)
    | Completing(todo: seq<Write>)
    | Leaving
    | Failing
    | FailureWriting(todo: seq<Write>)
    | Announcing

  datatype Process =
    | Launcher(at: LauncherStage)
    | Runner(tree: nat, stage: RunnerStage)
    | Descendant(tree: nat)

  /** `wrote` and `beaten` are history: the trees whose runner changed the record or the
      PID file, and those whose runner lost the claim. */
  datatype State = State(
    procs: map<nat, Process>,
    lock: Option<nat>,
    holders: set<nat>,
    pid: Option<nat>,
    disk: Disk,
    nextTree: nat,
    wrote: set<nat>,
    beaten: set<nat>)

  /** `GiveUp` is a return from the call, be it an error or nothing left to do. */
  datatype LauncherAction =
    | AcquireLock
    | LoadPhase
    | CheckRecordedRunner
    | ProbeClaim
    | ReleaseProbe
    | BeginStart(report: Report)
    | BeginResume
    | BeginFinalize(evidence: Lifecycle.Evidence, changed: bool)
    | WriteNext
    | SpawnChild(q: nat)
    | SpawnFails(report: Report)
    | RecordChild
    | KillChild(linked: bool, report: Report)
    | FinalizeForget
    | GiveUp

  datatype RunnerAction =
    | LoadRecord
    | TakeClaim
    | LoseClaim
    | RecordPid
    | CheckPhase
    | Progress(next: OpenPhase, report: Report)
    | Heartbeat(report: Report)
    | Complete(closing: Lifecycle.Closing)
    | Write
    | ForgetPid
    | DropClaim
    | Fail
    | FinalizeFailure(evidence: Lifecycle.Evidence, changed: bool)
    | FailureForget
    | AbandonFailure

  datatype Step =
    | Launch(p: nat, launcher: LauncherAction)
    | Work(p: nat, runner: RunnerAction)
    | SpawnLauncher(p: nat)
    | SpawnRunnerByHand(p: nat)
    | Exit(p: nat)
    | Fork(p: nat, q: nat)

  // ---- Shapes -------------------------------------------------------------

  predicate LauncherAt(s: State, p: nat) {
    p in s.procs && s.procs[p].Launcher?
  }

  predicate RunnerAt(s: State, p: nat) {
    p in s.procs && s.procs[p].Runner?
  }

  /** Past `claim_execution_runner` and not yet past the end of `run_shot`, or a process
      that inherited the claim descriptor. */
  predicate PastClaim(process: Process) {
    match process
    case Launcher(_) => false
    case Runner(_, stage) =>
      stage.Claimed? || stage.Recorded? || stage.Working? || stage.Completing? || stage.Leaving?
    case Descendant(_) => true
  }

  predicate HoldsClaim(process: Process) {
    PastClaim(process) || (process.Launcher? && process.at.Probing?)
  }

  /** The recorded PID names a process running this exact execution. */
  predicate RecordedAlive(s: State) {
    s.pid.Some? && RunnerAt(s, s.pid.value)
  }

  /** Zero for a launcher, which belongs to no runner's tree. */
  function Tree(process: Process): nat {
    if process.Launcher? then 0 else process.tree
  }

  /** Stages from which an error leaves `run_shot` for the finalization in `run`. */
  predicate FailsFrom(stage: RunnerStage) {
    !stage.Beaten? && !stage.Failing? && !stage.FailureWriting? && !stage.Announcing?
  }

  predicate LauncherWrites(at: LauncherStage) {
    (at.Starting? || at.Reverting? || at.Finalizing?) && at.todo != []
  }

  predicate RunnerWrites(stage: RunnerStage) {
    (stage.Working? || stage.Completing? || stage.FailureWriting?) && stage.todo != []
  }

  /** What `finalize_stalled_execution` goes on to write; nothing when it is refused, or
      when the outcome is recorded but for a completion. */
  function FinalWrites(disk: Disk, evidence: Lifecycle.Evidence, changed: bool): Option<seq<Write>> {
    var writes := Lifecycle.FinalizeWrites(disk, evidence, changed);
    if writes.Err? || (disk.completion.None? && Terminal(disk.phase)) then None else Some(writes.value)
  }

  // ---- Launcher -----------------------------------------------------------

  predicate LauncherMay(s: State, p: nat, action: LauncherAction)
    requires LauncherAt(s, p)
  {
    var at := s.procs[p].at;
    match action
    case AcquireLock => at.Waiting? && s.lock.None?
    case LoadPhase => at.Locked?
    case CheckRecordedRunner => at.Loaded?
    case ProbeClaim => at.Checked?
    case ReleaseProbe => at.Probing?
    case BeginStart(_) => at.Decided? && RecoveryDisposition(at.phase, at.busy) == Start
    case BeginResume => at.Decided? && RecoveryDisposition(at.phase, at.busy) == ResumeDelivery
    case BeginFinalize(_, _) => at.Decided? && RecoveryDisposition(at.phase, at.busy) == FinalizeAbandoned
    case WriteNext => LauncherWrites(at)
    case SpawnChild(q) => (at == Starting([]) || at.Resuming?) && q !in s.procs
    case SpawnFails(_) => at == Starting([]) || at.Resuming?
    case RecordChild => at.HandingOff? && s.pid in {None, Some(at.child)}
    case KillChild(linked, _) => at.HandingOff? && (linked ==> s.pid in {None, Some(at.child)})
    case FinalizeForget => at == Finalizing([])
    case GiveUp => !at.Waiting? && !at.Probing? && !at.Resuming? && !at.HandingOff?
  }

  function Goto(s: State, p: nat, at: LauncherStage): State {
    s.(procs := s.procs[p := Launcher(at)])
  }

  /** Dropping the lock guard ends the call; the launcher may call again. */
  function Return(s: State, p: nat): State {
    Goto(s, p, Waiting).(lock := None)
  }

  /** A child that was not handed off is undone, unless it was to resume a delivery. */
  function Undo(s: State, p: nat, resuming: bool, report: Report): State {
    if resuming then Return(s, p) else Goto(s, p, Reverting(PhaseUpdate(Prepared, report)))
  }

  function WithTodo(at: LauncherStage, todo: seq<Write>): LauncherStage
    requires LauncherWrites(at)
  {
    if at.Starting? then Starting(todo) else if at.Reverting? then Reverting(todo) else Finalizing(todo)
  }

  function AfterLauncher(s: State, p: nat, action: LauncherAction): State
    requires LauncherAt(s, p) && LauncherMay(s, p, action)
  {
    var at := s.procs[p].at;
    match action
    case AcquireLock => Goto(s, p, Locked).(lock := Some(p))
    case LoadPhase => Goto(s, p, Loaded(s.disk.phase))
    case CheckRecordedRunner => Goto(s, p, Checked(at.phase, RecordedAlive(s)))
    case ProbeClaim =>
      // the probe itself takes a free claim for a moment
      if s.holders == {} then Goto(s, p, Probing(at.phase, at.alive)).(holders := {p})
      else Goto(s, p, Decided(at.phase, true))
    case ReleaseProbe => Goto(s, p, Decided(at.phase, at.alive)).(holders := s.holders - {p})
    case BeginStart(report) => Goto(s, p, Starting(PhaseUpdate(RunnerStarted, report))).(pid := None)
    case BeginResume => Goto(s, p, Resuming).(pid := None)
    case BeginFinalize(evidence, changed) =>
      var writes := FinalWrites(s.disk, evidence, changed);
      if writes.Some? then Goto(s, p, Finalizing(writes.value)) else Return(s, p)
    case WriteNext => Goto(s, p, WithTodo(at, at.todo[1..])).(disk := Perform(s.disk, at.todo[0]))
    case SpawnChild(q) =>
      s.(procs := s.procs[q := Runner(s.nextTree, Booting)][p := Launcher(HandingOff(q, at.Resuming?))],
         nextTree := s.nextTree + 1)
    case SpawnFails(report) => Undo(s, p, at.Resuming?, report)
    case RecordChild => Return(s, p).(pid := Some(at.child))
    case KillChild(linked, report) =>
      // the PID may have been published before the hand-off failed
      var killed := if RunnerAt(s, at.child)
                    then s.(procs := s.procs - {at.child}, holders := s.holders - {at.child}) else s;
      Undo(killed, p, at.resuming, report).(pid := if linked then Some(at.child) else s.pid)
    case FinalizeForget => Return(s, p).(pid := None)
    case GiveUp => Return(s, p)
  }

  // ---- Runner -------------------------------------------------------------

  predicate RunnerMay(s: State, p: nat, action: RunnerAction)
    requires RunnerAt(s, p)
  {
    var stage := s.procs[p].stage;
    match action
    case LoadRecord => stage.Booting?
    case TakeClaim => stage.Arrived? && s.holders == {}
    case LoseClaim => stage.Arrived? && s.holders != {}
    case RecordPid => stage.Claimed?
    case CheckPhase => stage.Recorded?
    case Progress(_, _) => stage.Working? && stage.todo == []
    case Heartbeat(_) => stage.Working? && stage.todo == []
    case Complete(_) => stage.Working? && stage.todo == []
    case Write => RunnerWrites(stage)
    case ForgetPid => stage == Completing([])
    case DropClaim => stage == Completing([]) || stage.Leaving?
    case Fail => FailsFrom(stage)
    case FinalizeFailure(_, _) => stage.Failing?
    case FailureForget => stage == FailureWriting([])
    case AbandonFailure => stage.Failing? || stage.FailureWriting?
  }

  function Staged(s: State, p: nat, stage: RunnerStage): State
    requires RunnerAt(s, p)
  {
    s.(procs := s.procs[p := Runner(s.procs[p].tree, stage)])
  }

  /** Leaving `run_shot` on an error closes the runner's own copy of the claim. */
  function Failed(s: State, p: nat): State
    requires RunnerAt(s, p)
  {
    Staged(s, p, Failing).(holders := s.holders - {p})
  }

  /** A runner's durable change, with its author noted. */
  function Wrote(s: State, p: nat): State
    requires RunnerAt(s, p)
  {
    s.(wrote := s.wrote + {s.procs[p].tree})
  }

  function Rest(stage: RunnerStage): RunnerStage
    requires RunnerWrites(stage)
  {
    if stage.Working? then Working(stage.mine, stage.todo[1..])
    else if stage.Completing? then Completing(stage.todo[1..])
    else FailureWriting(stage.todo[1..])
  }

  function AfterRunner(s: State, p: nat, action: RunnerAction): State
    requires RunnerAt(s, p) && RunnerMay(s, p, action)
  {
    var stage := s.procs[p].stage;
    match action
    case LoadRecord => Staged(s, p, Arrived(s.disk.phase))
    case TakeClaim => Staged(s, p, Claimed(stage.seen)).(holders := {p})
    case LoseClaim => Staged(s, p, Beaten).(beaten := s.beaten + {s.procs[p].tree})
    case RecordPid =>
      if s.pid == None then Wrote(Staged(s, p, Recorded(stage.seen)).(pid := Some(p)), p)
      else if s.pid == Some(p) then Staged(s, p, Recorded(stage.seen))
      else Failed(s, p)
    case CheckPhase =>
      if Refuses(RunnerArrival(stage.seen)) then Failed(s, p) else Staged(s, p, Working(stage.seen, []))
    case Progress(next, report) => Staged(s, p, Working(next, PhaseUpdate(next, report)))
    case Heartbeat(report) => Staged(s, p, Working(stage.mine, [AppendEvent(HarnessRunning, report)]))
    case Complete(closing) =>
      Staged(s, p, Completing(Lifecycle.CompleteWrites(s.disk.(phase := stage.mine), closing)))
    case Write => Wrote(Staged(s, p, Rest(stage)).(disk := Perform(s.disk, stage.todo[0])), p)
    case ForgetPid => Wrote(Staged(s, p, Leaving).(pid := None), p)
    case DropClaim => Staged(s, p, Announcing).(holders := s.holders - {p})
    case Fail => Failed(s, p)
    case FinalizeFailure(evidence, changed) =>
      var writes := FinalWrites(s.disk, evidence, changed);
      Staged(s, p, if writes.Some? then FailureWriting(writes.value) else Announcing)
    case FailureForget => Wrote(Staged(s, p, Announcing).(pid := None), p)
    case AbandonFailure => Staged(s, p, Announcing)
  }

  // ---- Steps and runs -----------------------------------------------------

  predicate Enabled(s: State, step: Step) {
    match step
    case Launch(p, action) => LauncherAt(s, p) && LauncherMay(s, p, action)
    case Work(p, action) => RunnerAt(s, p) && RunnerMay(s, p, action)
    case SpawnLauncher(p) => p !in s.procs
    case SpawnRunnerByHand(p) => p !in s.procs
    case Exit(p) => p in s.procs
    case Fork(p, q) => p in s.procs && PastClaim(s.procs[p]) && q !in s.procs
  }

  function After(s: State, step: Step): State
    requires Enabled(s, step)
  {
    match step
    case Launch(p, action) => AfterLauncher(s, p, action)
    case Work(p, action) => AfterRunner(s, p, action)
    case SpawnLauncher(p) => Goto(s, p, Waiting)
    case SpawnRunnerByHand(p) =>
      s.(procs := s.procs[p := Runner(s.nextTree, Booting)], nextTree := s.nextTree + 1)
    case Exit(p) =>
      // an orderly end or a crash, at any point: the kernel drops its locks
      s.(procs := s.procs - {p}, holders := s.holders - {p}, lock := if s.lock == Some(p) then None else s.lock)
    case Fork(p, q) =>
      s.(procs := s.procs[q := Descendant(Tree(s.procs[p]))], holders := s.holders + {q})
  }

  /** Which runs are meant: all of them; those without hand-started runners and without a
      crash between spawning a child and recording its PID; of these, the ones whose
      launchers act only while the phase is not terminal; and the ones whose launchers
      restart or revert nothing that has its outcome. */
  datatype Rule = Anything | WholeHandOffs | OpenDecisions | GuardedDecisions

  predicate WholeHandOff(s: State, step: Step) {
    && !step.SpawnRunnerByHand?
    && !(step.Exit? && LauncherAt(s, step.p) && s.procs[step.p].at.HandingOff?)
  }

  predicate Acting(step: Step) {
    step.Launch? && (step.launcher.BeginStart? || step.launcher.BeginResume? || step.launcher.BeginFinalize?)
  }

  /** What the launcher would have to read again, under its lock, just before it starts,
      resumes, or reverts a start: the completion, the phase, the journal. */
  ghost predicate Guard(s: State, step: Step)
    requires Enabled(s, step)
  {
    step.Launch? ==>
      && (step.launcher.BeginStart? ==> s.disk.completion.None?)
      && (step.launcher.BeginResume? ==> s.disk.completion.None? || Refuses(RunnerArrival(s.disk.phase)))
      && (step.launcher.KillChild? && !s.procs[step.p].at.resuming ==> NoTerminalEvent(s.disk.events))
  }

  ghost predicate Allowed(rule: Rule, s: State, step: Step) {
    && Enabled(s, step)
    && (rule != Anything ==> WholeHandOff(s, step))
    && (rule == OpenDecisions && Acting(step) ==> !Terminal(s.disk.phase))
    && (rule == GuardedDecisions ==> Guard(s, step))
  }

  /** A durable preparation and no process yet. */
  ghost predicate Initial(s: State) {
    && s == State(map[], None, {}, None, s.disk, 1, {}, {})
    && s.disk.phase == Prepared && s.disk.completion.None? && Lifecycle.Recoverable(s.disk)
  }

  ghost predicate Legal(rule: Rule, s: State, steps: seq<Step>)
    decreases |steps|
  {
    steps != [] ==> Allowed(rule, s, steps[0]) && Legal(rule, After(s, steps[0]), steps[1..])
  }

  ghost function Run(rule: Rule, s: State, steps: seq<Step>): State
    requires Legal(rule, s, steps)
    decreases |steps|
  {
    if steps == [] then s else Run(rule, After(s, steps[0]), steps[1..])
  }

  ghost predicate Reaches(rule: Rule, s: State, t: State) {
    exists steps: seq<Step> :: Legal(rule, s, steps) && Run(rule, s, steps) == t
  }

  ghost predicate Reachable(rule: Rule, s: State) {
    exists start :: Initial(start) && Reaches(rule, start, s)
  }

  lemma {:induction false} RunExtends(rule: Rule, s: State, steps: seq<Step>, last: Step)
    requires Legal(rule, s, steps) && Allowed(rule, Run(rule, s, steps), last)
    ensures Legal(rule, s, steps + [last])
    ensures Run(rule, s, steps + [last]) == After(Run(rule, s, steps), last)
    decreases |steps|
  {
    if steps == [] {
      assert steps + [last] == [last];
      assert [last][1..] == [];
    } else {
      RunExtends(rule, After(s, steps[0]), steps[1..], last);
      assert (steps + [last])[1..] == steps[1..] + [last];
    }
  }

  lemma ReachesAfter(rule: Rule, s: State, t: State, step: Step)
    requires Reaches(rule, s, t) && Allowed(rule, t, step)
    ensures Reaches(rule, s, After(t, step))
  {
    var steps :| Legal(rule, s, steps) && Run(rule, s, steps) == t;
    RunExtends(rule, s, steps, step);
  }

  lemma ReachesItself(rule: Rule, s: State)
    ensures Reaches(rule, s, s)
  {
    assert Legal(rule, s, []) && Run(rule, s, []) == s;
  }

  lemma ReachableAfter(rule: Rule, s: State, step: Step)
    requires Reachable(rule, s) && Allowed(rule, s, step)
    ensures Reachable(rule, After(s, step))
  {
    var start :| Initial(start) && Reaches(rule, start, s);
    ReachesAfter(rule, start, s, step);
  }

  // ---- Building runs ------------------------------------------------------

  /** A set of states that no allowed step leaves. */
  ghost predicate Closed(rule: Rule, region: iset<State>) {
    forall s, step :: s in region && Allowed(rule, s, step) ==> After(s, step) in region
  }

  lemma ReachesClosed(rule: Rule, s: State)
    ensures Closed(rule, iset t | Reaches(rule, s, t)) && Reaches(rule, s, s)
  {
    ReachesItself(rule, s);
    forall t, step | Reaches(rule, s, t) && Allowed(rule, t, step) ensures Reaches(rule, s, After(t, step)) {
      ReachesAfter(rule, s, t, step);
    }
  }

  lemma ReachableClosed(rule: Rule)
    ensures Closed(rule, iset s | Reachable(rule, s))
    ensures forall s :: Initial(s) ==> Reachable(rule, s)
  {
    forall s | Initial(s) ensures Reachable(rule, s) {
      ReachesItself(rule, s);
    }
    forall s, step | Reachable(rule, s) && Allowed(rule, s, step) ensures Reachable(rule, After(s, step)) {
      ReachableAfter(rule, s, step);
    }
  }

  lemma Launches(rule: Rule, region: iset<State>, s: State, p: nat, action: LauncherAction) returns (next: State)
    requires Closed(rule, region) && s in region && Allowed(rule, s, Launch(p, action))
    ensures next in region && next == AfterLauncher(s, p, action)
  {
    next := After(s, Launch(p, action));
  }

  lemma Works(rule: Rule, region: iset<State>, s: State, p: nat, action: RunnerAction) returns (next: State)
    requires Closed(rule, region) && s in region && RunnerAt(s, p) && RunnerMay(s, p, action)
    ensures next in region && next == AfterRunner(s, p, action)
  {
    next := After(s, Work(p, action));
  }

  /** A runner that is let in goes to work when the claim is free and no PID recorded. */
  lemma EntersWork(rule: Rule, region: iset<State>, s: State, q: nat) returns (next: State)
    requires Closed(rule, region) && s in region && RunnerAt(s, q) && s.procs[q].stage.Booting?
    requires s.holders == {} && s.pid.None? && !Refuses(RunnerArrival(s.disk.phase))
    ensures next in region && next.disk == s.disk && next.holders == {q}
    ensures RunnerAt(next, q) && next.procs[q].stage == Working(s.disk.phase, [])
  {
    next := Works(rule, region, s, q, LoadRecord);
    next := Works(rule, region, next, q, TakeClaim);
    next := Works(rule, region, next, q, RecordPid);
    next := Works(rule, region, next, q, CheckPhase);
  }

  /** Where a runner stands that has performed the first `n` of its last writes. */
  function Past(stage: RunnerStage, n: nat): RunnerStage
    requires (stage.Completing? || stage.FailureWriting?) && n <= |stage.todo|
  {
    if stage.Completing? then Completing(stage.todo[n..]) else FailureWriting(stage.todo[n..])
  }

  lemma {:induction false} WritesSome(rule: Rule, region: iset<State>, s: State, p: nat, n: nat) returns (next: State)
    requires Closed(rule, region) && s in region && RunnerAt(s, p)
    requires (s.procs[p].stage.Completing? || s.procs[p].stage.FailureWriting?) && n <= |s.procs[p].stage.todo|
    ensures next in region
    ensures next == s.(procs := s.procs[p := Runner(s.procs[p].tree, Past(s.procs[p].stage, n))],
                       disk := PerformAll(s.disk, s.procs[p].stage.todo[..n]), wrote := next.wrote)
    decreases n
  {
    var todo := s.procs[p].stage.todo;
    if n == 0 {
      next := s;
      assert todo[..0] == [] && todo[0..] == todo;
      assert s.procs[p := s.procs[p]] == s.procs;
    } else {
      var written := Works(rule, region, s, p, Write);
      next := WritesSome(rule, region, written, p, n - 1);
      assert todo[..n][0] == todo[0] && todo[..n][1..] == todo[1..][..n - 1] && todo[1..][n - 1..] == todo[n..];
    }
  }
}
