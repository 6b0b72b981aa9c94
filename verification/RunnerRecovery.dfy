/** Runs whose runners all come from `ensure_background_runner` and whose PID hand-offs
    are whole, with launchers that act only while the phase is not terminal: one live
    runner, and recovery that acts alone. */
module RunnerRecovery {
  import opened Wrappers
  import opened ExecutionPhases
  import opened ExecutionRecord
  import opened RunnerProtocol
  import opened RunnerExclusion
  import Lifecycle = ExecutionLifecycle

  /** No process of any runner's tree is left. */
  ghost predicate NoTree(procs: map<nat, Process>) {
    forall p :: p in procs ==> procs[p].Launcher?
  }

  // ---- Lists of writes ----------------------------------------------------

  /** From this phase the writes end in a terminal phase and never leave one. */
  predicate Forward(phase: Phase, todo: seq<Write>)
    decreases |todo|
  {
    if todo == [] then Terminal(phase)
    else if todo[0].WritePhase? then
      (Terminal(phase) ==> Terminal(todo[0].phase)) && Forward(todo[0].phase, todo[1..])
    else Forward(phase, todo[1..])
  }

  predicate OpenWrites(todo: seq<Write>) {
    forall i :: 0 <= i < |todo| && todo[i].WritePhase? ==> !Terminal(todo[i].phase)
  }

  lemma {:induction false} ForwardAfterOpen(phase: OpenPhase, first: seq<Write>, rest: seq<Write>)
    requires OpenWrites(first)
    requires forall next: OpenPhase :: Forward(next, rest)
    ensures Forward(phase, first + rest)
    decreases |first|
  {
    if first == [] {
      assert first + rest == rest;
    } else {
      assert (first + rest)[1..] == first[1..] + rest;
      ForwardAfterOpen(if first[0].WritePhase? then first[0].phase else phase, first[1..], rest);
    }
  }

  lemma TerminalUpdateForward(phase: Phase, next: Phase, report: Report)
    requires Terminal(next)
    ensures Forward(phase, PhaseUpdate(next, report))
  {
    assert PhaseUpdate(next, report)[1..] == [AppendEvent(next, report)];
    assert Forward(next, [AppendEvent(next, report)]) == Forward(next, [AppendEvent(next, report)][1..]);
  }

  lemma CompletionForward(disk: Disk, phase: OpenPhase, closing: Lifecycle.Closing)
    ensures Forward(phase, Lifecycle.CompleteWrites(disk, closing))
  {
    var completion := Lifecycle.ClosingCompletion(disk.binding, closing);
    var before := Lifecycle.BeforeCompletion(disk.phase, closing);
    var finish := PhaseUpdate(ImpliedPhase(completion), Ended);
    forall next: OpenPhase ensures Forward(next, finish) {
      TerminalUpdateForward(next, ImpliedPhase(completion), Ended);
    }
    ForwardAfterOpen(phase, before + [PublishCompletion(completion)], finish);
  }

  lemma ReconcileForward(disk: Disk, completion: Completion, evidence: bool)
    requires ReconcileWrites(disk, completion, evidence).Ok?
    ensures Forward(disk.phase, ReconcileWrites(disk, completion, evidence).value)
  {
    ReconcileWritesShape(disk, completion, evidence);
    TerminalUpdateForward(disk.phase, ImpliedPhase(completion), Recovered(ImpliedPhase(completion)));
  }

  lemma FinalWritesForward(disk: Disk, evidence: Lifecycle.Evidence, changed: bool)
    requires FinalWrites(disk, evidence, changed).Some?
    ensures Forward(disk.phase, FinalWrites(disk, evidence, changed).value)
  {
    if disk.completion.Some? {
      var completion := disk.completion.value;
      ReconcileForward(disk, completion, completion.landed ==> Lifecycle.Landed(evidence));
    } else {
      var (accepted, passed) := if evidence.Some? then evidence.value else (false, false);
      CompletionForward(disk, disk.phase, Lifecycle.Closing(false, accepted, passed, changed));
    }
  }

  // ---- The invariant, in parts --------------------------------------------

  /** `lock` is the only launcher inside the call and `runner` the only runner. */
  ghost predicate Cast(procs: map<nat, Process>, lock: Option<nat>, runner: Option<nat>) {
    && (forall p :: p in procs && procs[p].Launcher? && !procs[p].at.Waiting? ==> lock == Some(p))
    && (lock.Some? ==> lock.value in procs && procs[lock.value].Launcher? && !procs[lock.value].at.Waiting?)
    && (forall p :: p in procs && procs[p].Runner? ==> runner == Some(p))
    && (runner.Some? ==> runner.value in procs && procs[runner.value].Runner?)
  }

  /** What a runner's stage says about the durable phase. */
  predicate StageFits(stage: RunnerStage, phase: Phase) {
    match stage
    case Arrived(seen) => seen == phase
    case Claimed(seen) => seen == phase
    case Recorded(seen) => seen == phase
    case Working(_, todo) => !Terminal(phase) && OpenWrites(todo)
    case Completing(todo) => Forward(phase, todo)
    case Leaving => Terminal(phase)
    case FailureWriting(todo) => Forward(phase, todo)
    case _ => true
  }

  /** What the lock holder knows. */
  predicate Knows(at: LauncherStage, runner: Option<nat>, free: bool, pid: Option<nat>, phase: Phase) {
    match at
    case Checked(_, alive) => alive || Terminal(phase) || runner.None?
    case Probing(_, alive) => alive || Terminal(phase) || runner.None?
    case Decided(_, busy) => busy || Terminal(phase) || (runner.None? && free)
    case Starting(_) => runner.None? && pid.None?
    case Resuming => runner.None? && pid.None?
    case HandingOff(child, _) => runner in {None, Some(child)} && pid in {None, Some(child)}
    case Reverting(_) => runner.None?
    case Finalizing(_) => runner.None?
    case _ => true
  }

  /** A runner on an unfinished execution is the recorded one, or is being recorded. */
  predicate Tracked(s: State, runner: Option<nat>) {
    runner.None? || Terminal(s.disk.phase) || s.pid == runner
    || (s.lock.Some? && LauncherAt(s, s.lock.value) && s.procs[s.lock.value].at.HandingOff?
        && s.procs[s.lock.value].at.child == runner.value)
  }

  predicate Story(s: State, runner: Option<nat>) {
    && Tracked(s, runner)
    && (runner.Some? && RunnerAt(s, runner.value) ==> StageFits(s.procs[runner.value].stage, s.disk.phase))
    && (s.lock.Some? && LauncherAt(s, s.lock.value) ==>
          Knows(s.procs[s.lock.value].at, runner, s.holders == {}, s.pid, s.disk.phase))
  }

  ghost predicate RecoveryInvariant(s: State, runner: Option<nat>) {
    ClaimInvariant(s.procs, s.holders) && Cast(s.procs, s.lock, runner) && Story(s, runner)
  }

  /** Who is the runner after a step. */
  function NextRunner(s: State, runner: Option<nat>, step: Step): Option<nat> {
    if step.Launch? && step.launcher.SpawnChild? then Some(step.launcher.q)
    else if step.Launch? && step.launcher.KillChild? then None
    else if step.Exit? && runner == Some(step.p) then None
    else runner
  }

  // ---- The cast -----------------------------------------------------------

  lemma CastLauncherMoves(procs: map<nat, Process>, lock: Option<nat>, runner: Option<nat>, p: nat, at: LauncherStage)
    requires Cast(procs, lock, runner)
    requires p in procs ==> procs[p].Launcher?
    requires at.Waiting? || lock == None || lock == Some(p)
    ensures at.Waiting? ==> Cast(procs[p := Launcher(at)], if lock == Some(p) then None else lock, runner)
    ensures !at.Waiting? ==> Cast(procs[p := Launcher(at)], Some(p), runner)
  {
  }

  lemma CastLauncherStep(s: State, runner: Option<nat>, p: nat, action: LauncherAction)
    requires RecoveryInvariant(s, runner) && LauncherAt(s, p) && LauncherMay(s, p, action)
    ensures var after := AfterLauncher(s, p, action);
            Cast(after.procs, after.lock, NextRunner(s, runner, Launch(p, action)))
  {
    var after := AfterLauncher(s, p, action);
    if action.SpawnChild? {
      var child := Runner(s.nextTree, Booting);
      CastLauncherMoves(s.procs[action.q := child], s.lock, Some(action.q), p, after.procs[p].at);
    } else if action.KillChild? && RunnerAt(s, s.procs[p].at.child) {
      var child := s.procs[p].at.child;
      CastLauncherMoves(s.procs - {child}, s.lock, None, p, after.procs[p].at);
    } else {
      CastLauncherMoves(s.procs, s.lock, runner, p, after.procs[p].at);
    }
  }

  lemma CastRunnerStep(s: State, runner: Option<nat>, p: nat, action: RunnerAction)
    requires Cast(s.procs, s.lock, runner) && RunnerAt(s, p) && RunnerMay(s, p, action)
    ensures Cast(AfterRunner(s, p, action).procs, s.lock, runner)
  {
  }

  // ---- The story ----------------------------------------------------------

  lemma StoryLauncherReads(s: State, runner: Option<nat>, p: nat, action: LauncherAction)
    requires RecoveryInvariant(s, runner) && LauncherAt(s, p) && LauncherMay(s, p, action)
    requires action.AcquireLock? || action.LoadPhase? || action.CheckRecordedRunner? || action.ProbeClaim?
             || action.ReleaseProbe? || action.GiveUp?
    ensures Story(AfterLauncher(s, p, action), runner)
  {
    if action.ReleaseProbe? {
      assert p in s.holders;
      assert s.holders == {p};
    }
  }

  lemma StoryLauncherActs(s: State, runner: Option<nat>, p: nat, action: LauncherAction)
    requires RecoveryInvariant(s, runner) && LauncherAt(s, p) && LauncherMay(s, p, action)
    requires Acting(Launch(p, action)) && !Terminal(s.disk.phase)
    ensures Story(AfterLauncher(s, p, action), runner)
  {
  }

  lemma StoryLauncherSpawns(s: State, runner: Option<nat>, p: nat, action: LauncherAction)
    requires RecoveryInvariant(s, runner) && LauncherAt(s, p) && LauncherMay(s, p, action)
    requires action.SpawnChild? || action.SpawnFails? || action.RecordChild? || action.KillChild?
    ensures Story(AfterLauncher(s, p, action), NextRunner(s, runner, Launch(p, action)))
  {
  }

  lemma StoryLauncherWrites(s: State, runner: Option<nat>, p: nat, action: LauncherAction)
    requires RecoveryInvariant(s, runner) && LauncherAt(s, p) && LauncherMay(s, p, action)
    requires action.WriteNext? || action.FinalizeForget?
    ensures Story(AfterLauncher(s, p, action), runner)
  {
  }

  lemma StoryRunnerEnters(s: State, runner: Option<nat>, p: nat, action: RunnerAction)
    requires RecoveryInvariant(s, runner) && RunnerAt(s, p) && RunnerMay(s, p, action)
    requires action.LoadRecord? || action.TakeClaim? || action.LoseClaim? || action.RecordPid? || action.CheckPhase?
    ensures Story(AfterRunner(s, p, action), runner)
  {
  }

  lemma StoryRunnerWorks(s: State, runner: Option<nat>, p: nat, action: RunnerAction)
    requires RecoveryInvariant(s, runner) && RunnerAt(s, p) && RunnerMay(s, p, action)
    requires action.Progress? || action.Heartbeat? || action.Complete? || action.ForgetPid? || action.DropClaim?
    ensures Story(AfterRunner(s, p, action), runner)
  {
    if action.Complete? {
      CompletionForward(s.disk.(phase := s.procs[p].stage.mine), s.disk.phase, action.closing);
    }
  }

  lemma StoryRunnerWrites(s: State, runner: Option<nat>, p: nat)
    requires RecoveryInvariant(s, runner) && RunnerAt(s, p) && RunnerMay(s, p, RunnerAction.Write)
    ensures Story(AfterRunner(s, p, RunnerAction.Write), runner)
  {
    var todo := s.procs[p].stage.todo;
    assert OpenWrites(todo) ==> OpenWrites(todo[1..]);
  }

  lemma StoryRunnerFails(s: State, runner: Option<nat>, p: nat, action: RunnerAction)
    requires RecoveryInvariant(s, runner) && RunnerAt(s, p) && RunnerMay(s, p, action)
    requires action.Fail? || action.FinalizeFailure? || action.FailureForget? || action.AbandonFailure?
    ensures Story(AfterRunner(s, p, action), runner)
  {
    if action.FinalizeFailure? && FinalWrites(s.disk, action.evidence, action.changed).Some? {
      FinalWritesForward(s.disk, action.evidence, action.changed);
    }
  }

  lemma StoryWorldStep(s: State, runner: Option<nat>, step: Step)
    requires RecoveryInvariant(s, runner) && Enabled(s, step) && WholeHandOff(s, step)
    requires !step.Launch? && !step.Work?
    ensures Story(After(s, step), NextRunner(s, runner, step))
  {
    if step.Fork? {
      assert step.p in s.holders;
    }
  }

  // ---- Whole runs ---------------------------------------------------------

  lemma RecoveryLauncherStep(s: State, runner: Option<nat>, p: nat, action: LauncherAction)
    requires RecoveryInvariant(s, runner) && Allowed(OpenDecisions, s, Launch(p, action))
    ensures RecoveryInvariant(AfterLauncher(s, p, action), NextRunner(s, runner, Launch(p, action)))
  {
    ClaimLauncherStep(s, p, action);
    CastLauncherStep(s, runner, p, action);
    if Acting(Launch(p, action)) {
      StoryLauncherActs(s, runner, p, action);
    } else if action.SpawnChild? || action.SpawnFails? || action.RecordChild? || action.KillChild? {
      StoryLauncherSpawns(s, runner, p, action);
    } else if action.WriteNext? || action.FinalizeForget? {
      StoryLauncherWrites(s, runner, p, action);
    } else {
      StoryLauncherReads(s, runner, p, action);
    }
  }

  lemma RecoveryRunnerStep(s: State, runner: Option<nat>, p: nat, action: RunnerAction)
    requires RecoveryInvariant(s, runner) && RunnerAt(s, p) && RunnerMay(s, p, action)
    ensures RecoveryInvariant(AfterRunner(s, p, action), runner)
  {
    ClaimRunnerStep(s, p, action);
    CastRunnerStep(s, runner, p, action);
    if action.Fail? || action.FinalizeFailure? || action.FailureForget? || action.AbandonFailure? {
      StoryRunnerFails(s, runner, p, action);
    } else if action.Write? {
      StoryRunnerWrites(s, runner, p);
    } else if action.Progress? || action.Heartbeat? || action.Complete? || action.ForgetPid? || action.DropClaim? {
      StoryRunnerWorks(s, runner, p, action);
    } else {
      StoryRunnerEnters(s, runner, p, action);
    }
  }

  lemma RecoveryStep(s: State, runner: Option<nat>, step: Step)
    requires RecoveryInvariant(s, runner) && Allowed(OpenDecisions, s, step)
    ensures RecoveryInvariant(After(s, step), NextRunner(s, runner, step))
  {
    if step.Launch? {
      RecoveryLauncherStep(s, runner, step.p, step.launcher);
    } else if step.Work? {
      RecoveryRunnerStep(s, runner, step.p, step.runner);
    } else {
      ClaimStep(s, step);
      StoryWorldStep(s, runner, step);
    }
  }

  lemma {:induction false} RecoveryRun(s: State, runner: Option<nat>, steps: seq<Step>) returns (last: Option<nat>)
    requires RecoveryInvariant(s, runner) && Legal(OpenDecisions, s, steps)
    ensures RecoveryInvariant(Run(OpenDecisions, s, steps), last)
    decreases |steps|
  {
    last := runner;
    if steps != [] {
      RecoveryStep(s, runner, steps[0]);
      last := RecoveryRun(After(s, steps[0]), NextRunner(s, runner, steps[0]), steps[1..]);
    }
  }

  lemma ReachedInvariant(s: State) returns (runner: Option<nat>)
    requires Reachable(OpenDecisions, s)
    ensures RecoveryInvariant(s, runner)
  {
    var start :| Initial(start) && Reaches(OpenDecisions, start, s);
    var steps :| Legal(OpenDecisions, start, steps) && Run(OpenDecisions, start, steps) == s;
    runner := RecoveryRun(start, None, steps);
  }

  /** One runner at a time; on an unfinished execution it is the one `runner.pid` names
      unless the launcher that spawned it is still about to record it, and it works only
      while the phase is not terminal. */
  lemma AtMostOneLiveRunner(s: State, p: nat, q: nat)
    requires Reachable(OpenDecisions, s) && RunnerAt(s, p) && RunnerAt(s, q)
    ensures p == q
    ensures Terminal(s.disk.phase) || s.pid == Some(p)
            || exists l :: LauncherAt(s, l) && s.procs[l].at.HandingOff? && s.procs[l].at.child == p
    ensures s.procs[p].stage.Working? ==> !Terminal(s.disk.phase)
  {
    var runner := ReachedInvariant(s);
  }

  /** With no runner and a free claim, no descendant is left either. */
  lemma NothingLeft(s: State)
    requires ClaimInvariant(s.procs, s.holders) && s.holders == {}
    requires forall p :: p in s.procs ==> !s.procs[p].Runner?
    ensures NoTree(s.procs)
  {
    forall p | p in s.procs ensures s.procs[p].Launcher? {
      assert p in s.holders <==> HoldsClaim(s.procs[p]);
    }
  }

  /** Recovery starts, resumes or finalizes only when every process of every earlier
      runner's tree is gone, and it leaves none of them behind. */
  lemma RecoveryActsAlone(s: State, step: Step)
    requires Reachable(OpenDecisions, s) && Allowed(OpenDecisions, s, step) && Acting(step)
    ensures NoTree(s.procs) && !Terminal(s.disk.phase)
    ensures NoTree(After(s, step).procs)
  {
    var runner := ReachedInvariant(s);
    NothingLeft(s);
  }

  /** Reading the phase again when about to act would give the same disposition. */
  predicate Fresh(s: State, p: nat)
    requires LauncherAt(s, p) && s.procs[p].at.Decided?
  {
    RecoveryDisposition(s.disk.phase, false) == RecoveryDisposition(s.procs[p].at.phase, false)
  }

  /** That recovery acts alone does not make its action the right one: that takes a phase
      that is still fresh. Then, and only then, a resumed runner finds a delivery to
      resume, a started one an execution not yet begun, and finalization one that no
      runner would be let into but by hand. */
  lemma ActionIsRightExactlyWhenFresh(s: State, step: Step)
    requires Reachable(OpenDecisions, s) && Allowed(OpenDecisions, s, step) && Acting(step)
    ensures step.launcher.BeginResume? ==> (Fresh(s, step.p) <==> RunnerArrival(s.disk.phase) == ResumeWaiting)
    ensures step.launcher.BeginStart? ==> (Fresh(s, step.p) <==> s.disk.phase in {Prepared, RunnerStarted})
    ensures step.launcher.BeginFinalize? ==>
      (Fresh(s, step.p) <==> RunnerArrival(s.disk.phase) == RefuseInFlight || s.disk.phase in {TerminalOpened, ValidationCompleted})
  {
    RecoverySpawnsOnlyAdmittedRunners(s.disk.phase);
    RecoverySpawnsOnlyAdmittedRunners(s.procs[step.p].at.phase);
  }
}
