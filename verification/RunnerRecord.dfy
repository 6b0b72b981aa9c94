/** The record under many processes: one outcome, never replaced. First by the single
    durable write on every run whatsoever, then by what a launcher has to read again
    before it starts, resumes, or reverts a start. */
module RunnerRecord {
  import opened Wrappers
  import opened ExecutionPhases
  import opened ExecutionRecord
  import opened ExecutionLifecycle
  import opened Protocol = RunnerProtocol
  import opened RunnerExclusion

  // ---- Write by write, on every run ---------------------------------------

  /** The durable write the step performs on the record, if it does. */
  function NextWrite(s: State, step: Step): Option<Write>
    requires Protocol.Enabled(s, step)
  {
    if step.Launch? && step.launcher.WriteNext? then Some(s.procs[step.p].at.todo[0])
    else if step.Work? && step.runner.Write? then Some(s.procs[step.p].stage.todo[0])
    else None
  }

  lemma OnlyWritesChangeRecord(s: State, step: Step)
    requires Protocol.Enabled(s, step)
    ensures After(s, step).disk == if NextWrite(s, step).Some? then Perform(s.disk, NextWrite(s, step).value) else s.disk
  {
  }

  /** The write about to be performed is orderly on the record as it is now. */
  ghost predicate OrderlyStep(s: State, step: Step)
    requires Protocol.Enabled(s, step)
  {
    NextWrite(s, step).Some? ==> Orderly(s.disk, NextWrite(s, step).value)
  }

  ghost predicate OrderlyAlong(s: State, steps: seq<Step>)
    requires Legal(Anything, s, steps)
    decreases |steps|
  {
    steps != [] ==> OrderlyStep(s, steps[0]) && OrderlyAlong(After(s, steps[0]), steps[1..])
  }

  ghost predicate RecordAlong(s: State, steps: seq<Step>)
    requires Legal(Anything, s, steps)
    decreases |steps|
  {
    steps != [] ==> Kept(s.disk, After(s, steps[0]).disk) && RecordAlong(After(s, steps[0]), steps[1..])
  }

  lemma StepKeepsRecordExactly(s: State, step: Step)
    requires Recoverable(s.disk) && Protocol.Enabled(s, step)
    ensures Kept(s.disk, After(s, step).disk) <==> OrderlyStep(s, step)
  {
    OnlyWritesChangeRecord(s, step);
    if NextWrite(s, step).Some? {
      WriteKeepsRecordExactly(s.disk, NextWrite(s, step).value);
    }
  }

  /** On every run of any processes, the record has at most one outcome that is never
      replaced, if and only if every write is orderly when it is performed. */
  lemma {:induction false} RecordKeptExactlyByOrderlyWrites(s: State, steps: seq<Step>)
    requires Recoverable(s.disk) && Legal(Anything, s, steps)
    ensures RecordAlong(s, steps) <==> OrderlyAlong(s, steps)
    ensures RecordAlong(s, steps) ==> |TerminalEvents(Protocol.Run(Anything, s, steps).disk.events)| <= 1
    decreases |steps|
  {
    if steps == [] {
      AtMostOneTerminalEvent(s.disk);
    } else {
      StepKeepsRecordExactly(s, steps[0]);
      if Kept(s.disk, After(s, steps[0]).disk) {
        RecordKeptExactlyByOrderlyWrites(After(s, steps[0]), steps[1..]);
      }
    }
  }

  // ---- Lists of writes ----------------------------------------------------

  predicate OpenWrite(write: Write) {
    !write.PublishCompletion? && !Terminal(write.phase)
  }

  predicate OpenOnly(todo: seq<Write>) {
    forall i :: 0 <= i < |todo| ==> OpenWrite(todo[i])
  }

  predicate Closes(write: Write) {
    write.AppendEvent? && Terminal(write.phase)
  }

  /** The terminal event is the last write. */
  predicate ClosesLast(todo: seq<Write>) {
    forall i :: 0 <= i < |todo| - 1 ==> !Closes(todo[i])
  }

  /** The writes may all be performed and settle the record with the last one. */
  ghost predicate Ends(disk: Disk, todo: seq<Write>) {
    AllOrderly(disk, todo) && Settled(PerformAll(disk, todo)) && ClosesLast(todo)
  }

  /** A record without its outcome: whatever is on it, no terminal event is. */
  ghost predicate Unsettled(disk: Disk) {
    Recoverable(disk) && NoTerminalEvent(disk.events)
  }

  lemma SettledOrNot(disk: Disk)
    requires Recoverable(disk)
    ensures Settled(disk) <==> !Unsettled(disk)
  {
  }

  lemma OpenWriteKeeps(disk: Disk, write: Write)
    requires Unsettled(disk) && OpenWrite(write)
    ensures Kept(disk, Perform(disk, write)) && Unsettled(Perform(disk, write))
    ensures Perform(disk, write).completion == disk.completion
  {
    WriteKeepsRecordExactly(disk, write);
  }

  lemma EndsStep(disk: Disk, todo: seq<Write>)
    requires Unsettled(disk) && Ends(disk, todo) && todo != []
    ensures Kept(disk, Perform(disk, todo[0])) && Ends(Perform(disk, todo[0]), todo[1..])
    ensures Settled(Perform(disk, todo[0])) ==> todo[1..] == []
  {
    WriteKeepsRecordExactly(disk, todo[0]);
  }

  lemma CompletionCloses(disk: Disk, closing: ExecutionLifecycle.Closing)
    ensures ClosesLast(CompleteWrites(disk, closing))
  {
  }

  lemma CompletionEnds(disk: Disk, phase: Phase, closing: ExecutionLifecycle.Closing)
    requires Unsettled(disk) && disk.completion.None?
    ensures Ends(disk, CompleteWrites(disk.(phase := phase), closing))
  {
    CompletionOrderly(disk, phase, closing);
    CompletionCloses(disk.(phase := phase), closing);
  }

  lemma ReconcileCloses(disk: Disk, completion: Completion, evidence: bool)
    requires ReconcileWrites(disk, completion, evidence).Ok?
    ensures ClosesLast(ReconcileWrites(disk, completion, evidence).value)
  {
    ReconcileWritesShape(disk, completion, evidence);
  }

  lemma FinalWritesClose(disk: Disk, evidence: Evidence, changed: bool)
    requires FinalWrites(disk, evidence, changed).Some?
    ensures ClosesLast(FinalWrites(disk, evidence, changed).value)
  {
    if disk.completion.Some? {
      ReconcileCloses(disk, disk.completion.value, disk.completion.value.landed ==> Landed(evidence));
    } else {
      var (accepted, passed) := if evidence.Some? then evidence.value else (false, false);
      CompletionCloses(disk, ExecutionLifecycle.Closing(false, accepted, passed, changed));
    }
  }

  lemma FinalWritesEnd(disk: Disk, evidence: Evidence, changed: bool)
    requires Recoverable(disk) && FinalWrites(disk, evidence, changed).Some?
    ensures Ends(disk, FinalWrites(disk, evidence, changed).value)
  {
    FinalizeOrderly(disk, evidence, changed);
    FinalWritesClose(disk, evidence, changed);
  }

  // ---- Guarded decisions: before the outcome ------------------------------

  /** Every runner but one that lost the claim, or is past its finalization. */
  predicate Effective(stage: RunnerStage) {
    !stage.Beaten? && !stage.Announcing?
  }

  predicate EffectiveAt(s: State, p: nat) {
    RunnerAt(s, p) && Effective(s.procs[p].stage)
  }

  /** A runner that loads this record starts no work on it once it has a completion. */
  predicate Admissible(disk: Disk) {
    disk.completion.None? || Refuses(RunnerArrival(disk.phase))
  }

  ghost predicate StageHolds(stage: RunnerStage, disk: Disk) {
    match stage
    case Booting => Admissible(disk)
    case Arrived(seen) => seen == disk.phase && Admissible(disk)
    case Claimed(seen) => seen == disk.phase && Admissible(disk)
    case Recorded(seen) => seen == disk.phase && Admissible(disk)
    case Working(_, todo) => disk.completion.None? && OpenOnly(todo)
    case Completing(todo) => Ends(disk, todo)
    case Leaving => false
    case FailureWriting(todo) => Ends(disk, todo)
    case _ => true
  }

  /** What the lock holder knows of the one effective runner. */
  ghost predicate LauncherHolds(at: LauncherStage, runner: Option<nat>, free: bool, disk: Disk) {
    match at
    case Checked(_, alive) => alive || runner.None?
    case Probing(_, alive) => alive || runner.None?
    case Decided(_, busy) => busy || (runner.None? && free)
    case Starting(todo) => runner.None? && disk.completion.None? && OpenOnly(todo)
    case Resuming => runner.None? && Admissible(disk)
    case HandingOff(child, _) => runner in {None, Some(child)}
    case Reverting(todo) => runner.None? && OpenOnly(todo)
    case Finalizing(todo) => runner.None? && Ends(disk, todo)
    case _ => true
  }

  ghost predicate Roles(s: State, runner: Option<nat>) {
    && (forall p: nat :: LauncherAt(s, p) && !s.procs[p].at.Waiting? ==> s.lock == Some(p))
    && (s.lock.Some? ==> LauncherAt(s, s.lock.value) && !s.procs[s.lock.value].at.Waiting?)
    && (forall p: nat :: EffectiveAt(s, p) ==> runner == Some(p))
    && (runner.Some? ==> EffectiveAt(s, runner.value))
  }

  predicate HandedOff(s: State, runner: nat) {
    s.lock.Some? && LauncherAt(s, s.lock.value) && s.procs[s.lock.value].at.HandingOff?
    && s.procs[s.lock.value].at.child == runner
  }

  ghost predicate Plot(s: State, runner: Option<nat>) {
    && (runner.Some? ==> s.pid == runner || HandedOff(s, runner.value))
    && (runner.Some? && EffectiveAt(s, runner.value) ==> StageHolds(s.procs[runner.value].stage, s.disk))
    && (s.lock.Some? && LauncherAt(s, s.lock.value) ==>
          LauncherHolds(s.procs[s.lock.value].at, runner, s.holders == {}, s.disk))
  }

  ghost predicate OpenInvariant(s: State, runner: Option<nat>) {
    Unsettled(s.disk) && ClaimInvariant(s.procs, s.holders) && Roles(s, runner) && Plot(s, runner)
  }

  // ---- Guarded decisions: after the outcome -------------------------------

  /** The process will write nothing to the record any more. */
  predicate QuietProcess(process: Process) {
    match process
    case Launcher(at) => !at.Starting? && !at.Reverting? && (at.Finalizing? ==> at.todo == [])
    case Runner(_, stage) =>
      && !stage.Working?
      && (stage.Arrived? || stage.Claimed? || stage.Recorded? ==> Terminal(stage.seen))
      && (stage.Completing? || stage.FailureWriting? ==> stage.todo == [])
    case Descendant(_) => true
  }

  ghost predicate ClosedInvariant(s: State) {
    && Settled(s.disk) && ClaimInvariant(s.procs, s.holders)
    && forall p :: p in s.procs ==> QuietProcess(s.procs[p])
  }

  ghost predicate RecordInvariant(s: State, runner: Option<nat>) {
    if Settled(s.disk) then ClosedInvariant(s) else OpenInvariant(s, runner)
  }

  lemma SettledTakesNothing(disk: Disk, evidence: Evidence, changed: bool)
    requires Settled(disk)
    ensures FinalWrites(disk, evidence, changed) in {None, Some([])}
  {
    if disk.completion.value.landed ==> Landed(evidence) {
      SettledIsStable(disk, disk.completion.value, true, 0);
    } else {
      FinalizationSettles(disk, evidence, changed, 0);
    }
  }

  lemma QuietLauncher(s: State, p: nat, action: LauncherAction)
    requires Settled(s.disk) && Allowed(GuardedDecisions, s, Launch(p, action)) && QuietProcess(s.procs[p])
    ensures var after := AfterLauncher(s, p, action); QuietProcess(after.procs[p]) && after.disk == s.disk
    ensures var after := AfterLauncher(s, p, action);
            forall q :: q in after.procs && q != p ==> (q in s.procs && after.procs[q] == s.procs[q]) || QuietProcess(after.procs[q])
  {
    if action.BeginFinalize? {
      SettledTakesNothing(s.disk, action.evidence, action.changed);
    }
  }

  lemma QuietRunner(s: State, p: nat, action: RunnerAction)
    requires Settled(s.disk) && RunnerAt(s, p) && RunnerMay(s, p, action) && QuietProcess(s.procs[p])
    ensures var after := AfterRunner(s, p, action); QuietProcess(after.procs[p]) && after.disk == s.disk
  {
    if action.FinalizeFailure? {
      SettledTakesNothing(s.disk, action.evidence, action.changed);
    }
  }

  lemma OthersStay(s: State, p: nat, action: RunnerAction)
    requires RunnerAt(s, p) && RunnerMay(s, p, action)
    ensures var after := AfterRunner(s, p, action); RunnerAt(after, p) && after.procs == s.procs[p := after.procs[p]]
    ensures AfterRunner(s, p, action).lock == s.lock
  {
  }

  /** An outcome is for good. */
  lemma ClosedStep(s: State, step: Step)
    requires ClosedInvariant(s) && Allowed(GuardedDecisions, s, step)
    ensures ClosedInvariant(After(s, step)) && After(s, step).disk == s.disk
  {
    ClaimStep(s, step);
    if step.Launch? {
      QuietLauncher(s, step.p, step.launcher);
    } else if step.Work? {
      OthersStay(s, step.p, step.runner);
      QuietRunner(s, step.p, step.runner);
    }
  }

  // ---- Guarded decisions: one step before the outcome ---------------------

  /** The candidate, if it is still a runner that may write. */
  function Still(s: State, candidate: Option<nat>): Option<nat> {
    if candidate.Some? && EffectiveAt(s, candidate.value) then candidate else None
  }

  function Candidate(runner: Option<nat>, step: Step): Option<nat> {
    if step.Launch? && step.launcher.SpawnChild? then Some(step.launcher.q) else runner
  }

  function NextRunner(s: State, runner: Option<nat>, step: Step): Option<nat>
    requires Protocol.Enabled(s, step)
  {
    Still(After(s, step), Candidate(runner, step))
  }

  lemma RolesLauncherStep(s: State, runner: Option<nat>, p: nat, action: LauncherAction)
    requires OpenInvariant(s, runner) && LauncherAt(s, p) && LauncherMay(s, p, action)
    ensures Roles(AfterLauncher(s, p, action), Still(AfterLauncher(s, p, action), Candidate(runner, Launch(p, action))))
  {
    if action.KillChild? {
      RolesKill(s, runner, p, action.linked, action.report);
    } else if action.SpawnChild? {
      RolesSpawn(s, runner, p, action.q);
    } else {
      RolesLauncherMoves(s, runner, p, action);
    }
  }

  lemma RolesKill(s: State, runner: Option<nat>, p: nat, linked: bool, report: Report)
    requires OpenInvariant(s, runner) && LauncherAt(s, p) && LauncherMay(s, p, KillChild(linked, report))
    ensures var after := AfterLauncher(s, p, KillChild(linked, report)); Roles(after, Still(after, runner))
  {
  }

  lemma RolesSpawn(s: State, runner: Option<nat>, p: nat, q: nat)
    requires OpenInvariant(s, runner) && LauncherAt(s, p) && LauncherMay(s, p, SpawnChild(q))
    ensures var after := AfterLauncher(s, p, SpawnChild(q)); Roles(after, Still(after, Some(q)))
  {
  }

  lemma RolesLauncherMoves(s: State, runner: Option<nat>, p: nat, action: LauncherAction)
    requires Roles(s, runner) && LauncherAt(s, p) && LauncherMay(s, p, action) && !action.KillChild? && !action.SpawnChild?
    ensures var after := AfterLauncher(s, p, action); Roles(after, Still(after, runner))
  {
    var after := AfterLauncher(s, p, action);
    assert LauncherAt(after, p) && after.procs == s.procs[p := after.procs[p]];
    assert forall q: nat :: EffectiveAt(after, q) <==> EffectiveAt(s, q);
  }

  lemma RolesRunnerStep(s: State, runner: Option<nat>, p: nat, action: RunnerAction)
    requires Roles(s, runner) && RunnerAt(s, p) && RunnerMay(s, p, action)
    ensures Roles(AfterRunner(s, p, action), Still(AfterRunner(s, p, action), runner))
    ensures runner == Some(p)
  {
    OthersStay(s, p, action);
  }

  lemma RolesWorldStep(s: State, runner: Option<nat>, step: Step)
    requires Roles(s, runner) && Protocol.Enabled(s, step) && WholeHandOff(s, step) && !step.Launch? && !step.Work?
    ensures Roles(After(s, step), NextRunner(s, runner, step))
  {
  }

  lemma PlotLauncherReads(s: State, runner: Option<nat>, p: nat, action: LauncherAction)
    requires OpenInvariant(s, runner) && LauncherAt(s, p) && LauncherMay(s, p, action)
    requires action.AcquireLock? || action.LoadPhase? || action.CheckRecordedRunner? || action.ProbeClaim?
             || action.ReleaseProbe? || action.GiveUp?
    ensures Plot(AfterLauncher(s, p, action), Still(AfterLauncher(s, p, action), Candidate(runner, Launch(p, action))))
  {
    if action.ReleaseProbe? {
      assert p in s.holders;
      assert s.holders == {p};
    }
  }

  lemma PlotLauncherActs(s: State, runner: Option<nat>, p: nat, action: LauncherAction)
    requires OpenInvariant(s, runner) && Allowed(GuardedDecisions, s, Launch(p, action)) && Acting(Launch(p, action))
    ensures Plot(AfterLauncher(s, p, action), Still(AfterLauncher(s, p, action), Candidate(runner, Launch(p, action))))
  {
    if action.BeginFinalize? && FinalWrites(s.disk, action.evidence, action.changed).Some? {
      FinalWritesEnd(s.disk, action.evidence, action.changed);
    }
  }

  lemma PlotLauncherSpawns(s: State, runner: Option<nat>, p: nat, action: LauncherAction)
    requires OpenInvariant(s, runner) && LauncherAt(s, p) && LauncherMay(s, p, action)
    requires action.SpawnChild? || action.SpawnFails?
    ensures Plot(AfterLauncher(s, p, action), Still(AfterLauncher(s, p, action), Candidate(runner, Launch(p, action))))
  {
  }

  lemma PlotLauncherRecords(s: State, runner: Option<nat>, p: nat)
    requires OpenInvariant(s, runner) && LauncherAt(s, p) && LauncherMay(s, p, RecordChild)
    ensures Plot(AfterLauncher(s, p, RecordChild), Still(AfterLauncher(s, p, RecordChild), runner))
  {
  }

  lemma PlotLauncherKills(s: State, runner: Option<nat>, p: nat, linked: bool, report: Report)
    requires OpenInvariant(s, runner) && LauncherAt(s, p) && LauncherMay(s, p, KillChild(linked, report))
    ensures var after := AfterLauncher(s, p, KillChild(linked, report)); Plot(after, Still(after, runner))
  {
    var after := AfterLauncher(s, p, KillChild(linked, report));
    assert Still(after, runner).None?;
    assert LauncherAt(after, p) && (after.procs[p].at.Waiting? || after.procs[p].at == Reverting(PhaseUpdate(Prepared, report)));
  }

  /** Before the outcome nobody is past its last write. */
  lemma OutcomeNotYet(s: State, runner: Option<nat>, p: nat)
    requires OpenInvariant(s, runner) && p in s.procs
    ensures LauncherAt(s, p) ==> s.procs[p].at != Finalizing([])
    ensures runner == Some(p) && RunnerAt(s, p) ==>
      !s.procs[p].stage.Leaving? && s.procs[p].stage != Completing([]) && s.procs[p].stage != FailureWriting([])
  {
  }

  /** The one effective runner moves on, and perhaps records itself. */
  lemma PlotRunnerMoves(s: State, after: State, p: nat)
    requires OpenInvariant(s, Some(p)) && RunnerAt(s, p) && RunnerAt(after, p)
    requires after.procs == s.procs[p := after.procs[p]] && after.lock == s.lock && after.disk == s.disk
    requires after.pid in {s.pid, Some(p)}
    requires EffectiveAt(after, p) ==> StageHolds(after.procs[p].stage, s.disk)
    ensures Plot(after, Still(after, Some(p)))
  {
  }

  lemma PlotRunnerEnters(s: State, runner: Option<nat>, p: nat, action: RunnerAction)
    requires OpenInvariant(s, runner) && runner == Some(p) && RunnerAt(s, p) && RunnerMay(s, p, action)
    requires action.LoadRecord? || action.TakeClaim? || action.LoseClaim? || action.RecordPid? || action.CheckPhase?
    ensures Plot(AfterRunner(s, p, action), Still(AfterRunner(s, p, action), runner))
  {
    OthersStay(s, p, action);
    PlotRunnerMoves(s, AfterRunner(s, p, action), p);
  }

  lemma PlotRunnerWorks(s: State, runner: Option<nat>, p: nat, action: RunnerAction)
    requires OpenInvariant(s, runner) && runner == Some(p) && RunnerAt(s, p) && RunnerMay(s, p, action)
    requires action.Progress? || action.Heartbeat? || action.Complete?
    ensures Plot(AfterRunner(s, p, action), Still(AfterRunner(s, p, action), runner))
  {
    if action.Complete? {
      CompletionEnds(s.disk, s.procs[p].stage.mine, action.closing);
    }
    OthersStay(s, p, action);
    PlotRunnerMoves(s, AfterRunner(s, p, action), p);
  }

  lemma PlotRunnerFails(s: State, runner: Option<nat>, p: nat, action: RunnerAction)
    requires OpenInvariant(s, runner) && runner == Some(p) && RunnerAt(s, p) && RunnerMay(s, p, action)
    requires action.Fail? || action.FinalizeFailure? || action.AbandonFailure?
    ensures Plot(AfterRunner(s, p, action), Still(AfterRunner(s, p, action), runner))
  {
    if action.FinalizeFailure? && FinalWrites(s.disk, action.evidence, action.changed).Some? {
      FinalWritesEnd(s.disk, action.evidence, action.changed);
    }
    OthersStay(s, p, action);
    PlotRunnerMoves(s, AfterRunner(s, p, action), p);
  }

  lemma PlotWorldStep(s: State, runner: Option<nat>, step: Step)
    requires OpenInvariant(s, runner) && Protocol.Enabled(s, step) && WholeHandOff(s, step) && !step.Launch? && !step.Work?
    ensures Plot(After(s, step), NextRunner(s, runner, step))
  {
    if step.Fork? {
      assert step.p in s.holders;
    }
  }

  /** The only process that may write is the one that does. */
  lemma OthersQuiet(s: State, runner: Option<nat>, p: nat)
    requires Roles(s, runner) && Plot(s, runner)
    requires runner == Some(p) || (runner.None? && s.lock == Some(p))
    ensures forall q :: q in s.procs && q != p ==> QuietProcess(s.procs[q])
  {
    forall q | q in s.procs && q != p ensures QuietProcess(s.procs[q]) {
      assert s.procs[q].Runner? ==> !EffectiveAt(s, q);
    }
  }

  /** A finalization writes, outside the claim or as its last launcher. */
  lemma FinalizingWrites(s: State, runner: Option<nat>, p: nat)
    requires OpenInvariant(s, runner) && LauncherAt(s, p) && LauncherMay(s, p, WriteNext) && s.procs[p].at.Finalizing?
    ensures var after := AfterLauncher(s, p, WriteNext);
            Kept(s.disk, after.disk) && RecordInvariant(after, Still(after, runner))
  {
    var after := AfterLauncher(s, p, WriteNext);
    ClaimLauncherStep(s, p, WriteNext);
    RolesLauncherStep(s, runner, p, WriteNext);
    EndsStep(s.disk, s.procs[p].at.todo);
    if Settled(after.disk) {
      OthersQuiet(s, runner, p);
    }
  }

  /** The launcher that holds the lock writes. */
  lemma OpenLauncherWrites(s: State, runner: Option<nat>, p: nat)
    requires OpenInvariant(s, runner) && LauncherAt(s, p) && LauncherMay(s, p, WriteNext)
    ensures var after := AfterLauncher(s, p, WriteNext);
            Kept(s.disk, after.disk) && RecordInvariant(after, Still(after, runner))
  {
    var at := s.procs[p].at;
    if at.Finalizing? {
      FinalizingWrites(s, runner, p);
    } else {
      ClaimLauncherStep(s, p, WriteNext);
      RolesLauncherStep(s, runner, p, WriteNext);
      OpenWriteKeeps(s.disk, at.todo[0]);
      assert OpenOnly(at.todo[1..]);
    }
  }

  lemma EndingWrites(s: State, runner: Option<nat>, p: nat)
    requires OpenInvariant(s, runner) && runner == Some(p) && RunnerAt(s, p) && RunnerMay(s, p, RunnerAction.Write)
    requires !s.procs[p].stage.Working?
    ensures var after := AfterRunner(s, p, RunnerAction.Write);
            Kept(s.disk, after.disk) && RecordInvariant(after, Still(after, runner))
  {
    var after := AfterRunner(s, p, RunnerAction.Write);
    ClaimRunnerStep(s, p, RunnerAction.Write);
    RolesRunnerStep(s, runner, p, RunnerAction.Write);
    EndsStep(s.disk, s.procs[p].stage.todo);
    if Settled(after.disk) {
      EndingSettles(s, p);
    }
  }

  /** With the outcome complete nobody is left to write. */
  lemma EndingSettles(s: State, p: nat)
    requires OpenInvariant(s, Some(p)) && RunnerAt(s, p) && RunnerMay(s, p, RunnerAction.Write)
    requires Settled(AfterRunner(s, p, RunnerAction.Write).disk) && s.procs[p].stage.todo[1..] == []
    requires !s.procs[p].stage.Working?
    ensures ClosedInvariant(AfterRunner(s, p, RunnerAction.Write))
  {
    ClaimRunnerStep(s, p, RunnerAction.Write);
    OthersStay(s, p, RunnerAction.Write);
    OthersQuiet(s, Some(p), p);
  }

  /** The one effective runner writes. */
  lemma OpenRunnerWrites(s: State, runner: Option<nat>, p: nat)
    requires OpenInvariant(s, runner) && runner == Some(p) && RunnerAt(s, p) && RunnerMay(s, p, RunnerAction.Write)
    ensures var after := AfterRunner(s, p, RunnerAction.Write);
            Kept(s.disk, after.disk) && RecordInvariant(after, Still(after, runner))
  {
    var stage := s.procs[p].stage;
    if stage.Working? {
      ClaimRunnerStep(s, p, RunnerAction.Write);
      RolesRunnerStep(s, runner, p, RunnerAction.Write);
      OpenWriteKeeps(s.disk, stage.todo[0]);
      assert OpenOnly(stage.todo[1..]);
    } else {
      EndingWrites(s, runner, p);
    }
  }

  lemma OpenLauncherStep(s: State, runner: Option<nat>, p: nat, action: LauncherAction)
    requires OpenInvariant(s, runner) && Allowed(GuardedDecisions, s, Launch(p, action)) && !action.WriteNext?
    ensures OpenInvariant(AfterLauncher(s, p, action), Still(AfterLauncher(s, p, action), Candidate(runner, Launch(p, action))))
  {
    ClaimLauncherStep(s, p, action);
    RolesLauncherStep(s, runner, p, action);
    OutcomeNotYet(s, runner, p);
    if Acting(Launch(p, action)) {
      PlotLauncherActs(s, runner, p, action);
    } else if action.SpawnChild? || action.SpawnFails? {
      PlotLauncherSpawns(s, runner, p, action);
    } else if action.RecordChild? {
      PlotLauncherRecords(s, runner, p);
    } else if action.KillChild? {
      PlotLauncherKills(s, runner, p, action.linked, action.report);
    } else {
      PlotLauncherReads(s, runner, p, action);
    }
  }

  lemma OpenRunnerStep(s: State, runner: Option<nat>, p: nat, action: RunnerAction)
    requires OpenInvariant(s, runner) && RunnerAt(s, p) && RunnerMay(s, p, action) && !action.Write?
    ensures OpenInvariant(AfterRunner(s, p, action), Still(AfterRunner(s, p, action), runner))
  {
    ClaimRunnerStep(s, p, action);
    RolesRunnerStep(s, runner, p, action);
    OutcomeNotYet(s, runner, p);
    if action.Fail? || action.FinalizeFailure? || action.AbandonFailure? {
      PlotRunnerFails(s, runner, p, action);
    } else if action.Progress? || action.Heartbeat? || action.Complete? {
      PlotRunnerWorks(s, runner, p, action);
    } else {
      PlotRunnerEnters(s, runner, p, action);
    }
  }

  lemma OpenStep(s: State, runner: Option<nat>, step: Step)
    requires OpenInvariant(s, runner) && Allowed(GuardedDecisions, s, step)
    ensures Kept(s.disk, After(s, step).disk) && RecordInvariant(After(s, step), NextRunner(s, runner, step))
  {
    if step.Launch? && step.launcher.WriteNext? {
      OpenLauncherWrites(s, runner, step.p);
    } else if step.Work? && step.runner.Write? {
      RolesRunnerStep(s, runner, step.p, step.runner);
      OpenRunnerWrites(s, runner, step.p);
    } else {
      OnlyWritesChangeRecord(s, step);
      if step.Launch? {
        OpenLauncherStep(s, runner, step.p, step.launcher);
      } else if step.Work? {
        OpenRunnerStep(s, runner, step.p, step.runner);
      } else {
        ClaimStep(s, step);
        RolesWorldStep(s, runner, step);
        PlotWorldStep(s, runner, step);
      }
    }
  }

  lemma RecordStep(s: State, runner: Option<nat>, step: Step)
    requires RecordInvariant(s, runner) && Allowed(GuardedDecisions, s, step)
    ensures Kept(s.disk, After(s, step).disk) && RecordInvariant(After(s, step), NextRunner(s, runner, step))
  {
    if Settled(s.disk) {
      ClosedStep(s, step);
    } else {
      OpenStep(s, runner, step);
    }
  }

  lemma {:induction false} RecordRun(s: State, runner: Option<nat>, steps: seq<Step>) returns (last: Option<nat>)
    requires RecordInvariant(s, runner) && Legal(GuardedDecisions, s, steps)
    ensures var after := Protocol.Run(GuardedDecisions, s, steps);
            RecordInvariant(after, last) && Kept(s.disk, after.disk)
    decreases |steps|
  {
    last := runner;
    if steps != [] {
      RecordStep(s, runner, steps[0]);
      last := RecordRun(After(s, steps[0]), NextRunner(s, runner, steps[0]), steps[1..]);
    }
  }

  lemma ReachedRecord(s: State) returns (runner: Option<nat>)
    requires Reachable(GuardedDecisions, s)
    ensures RecordInvariant(s, runner)
  {
    var start :| Initial(start) && Reaches(GuardedDecisions, start, s);
    var steps :| Legal(GuardedDecisions, start, steps) && Protocol.Run(GuardedDecisions, start, steps) == s;
    runner := RecordRun(start, None, steps);
  }
}
