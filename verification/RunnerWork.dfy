/** Every run, with runners started by hand and hand-offs cut by crashes: when a runner
    works on an execution that has its outcome, and when recovery acts alone. */
module RunnerWork {
  import opened Wrappers
  import opened ExecutionPhases
  import opened ExecutionRecord
  import opened RunnerProtocol
  import opened RunnerExclusion
  import opened RunnerRecovery

  predicate WorksAt(s: State, p: nat) {
    RunnerAt(s, p) && s.procs[p].stage.Working?
  }

  /** No runner works on a terminal phase. */
  ghost predicate WorkIsOpen(s: State) {
    forall p :: WorksAt(s, p) ==> !Terminal(s.disk.phase)
  }

  /** The step writes a terminal phase by a finalization, outside the claim. */
  predicate FinalizesPhase(s: State, step: Step)
    requires Enabled(s, step)
  {
    || (&& step.Launch? && step.launcher.WriteNext?
        && s.procs[step.p].at.todo[0].WritePhase? && Terminal(s.procs[step.p].at.todo[0].phase))
    || (&& step.Work? && step.runner.Write? && s.procs[step.p].stage.FailureWriting?
        && s.procs[step.p].stage.todo[0].WritePhase? && Terminal(s.procs[step.p].stage.todo[0].phase))
  }

  /** What has to be read again: the phase, by a runner that holds the claim and whose
      loaded phase would let it in; and that nobody works, by whoever finalizes. */
  ghost predicate WorkGuard(s: State, step: Step)
    requires Enabled(s, step)
  {
    && (step.Work? && step.runner.CheckPhase? && !Refuses(RunnerArrival(s.procs[step.p].stage.seen)) ==>
          !Terminal(s.disk.phase))
    && (FinalizesPhase(s, step) ==> forall p :: !WorksAt(s, p))
  }

  /** Launchers start and revert to open phases only, and so do working runners. */
  ghost predicate OpenTodo(procs: map<nat, Process>) {
    forall p :: p in procs ==> OpenProcess(procs[p])
  }

  predicate OpenProcess(process: Process) {
    && (process.Launcher? && (process.at.Starting? || process.at.Reverting?) ==> OpenWrites(process.at.todo))
    && (process.Runner? && process.stage.Working? ==> OpenWrites(process.stage.todo))
  }

  ghost predicate WorkInvariant(s: State) {
    && ClaimInvariant(s.procs, s.holders)
    && HistoryInvariant(s.procs, s.nextTree, s.wrote, s.beaten)
    && OpenTodo(s.procs)
  }

  lemma OpenTodoStep(s: State, step: Step)
    requires OpenTodo(s.procs) && Enabled(s, step)
    ensures OpenTodo(After(s, step).procs)
  {
    if step.Launch? {
      OpenLauncherStep(s, step.p, step.launcher);
    } else if step.Work? {
      OpenRunnerStep(s, step.p, step.runner);
    }
  }

  lemma OpenLauncherStep(s: State, p: nat, action: LauncherAction)
    requires OpenTodo(s.procs) && LauncherAt(s, p) && LauncherMay(s, p, action)
    ensures OpenTodo(AfterLauncher(s, p, action).procs)
  {
    assert OpenProcess(s.procs[p]);
    assert OpenProcess(AfterLauncher(s, p, action).procs[p]);
  }

  lemma OpenRunnerStep(s: State, p: nat, action: RunnerAction)
    requires OpenTodo(s.procs) && RunnerAt(s, p) && RunnerMay(s, p, action)
    ensures OpenTodo(AfterRunner(s, p, action).procs)
  {
    assert OpenProcess(s.procs[p]);
    assert OpenProcess(AfterRunner(s, p, action).procs[p]);
  }

  /** Two different runners past the claim would be of one tree. */
  lemma WorkerAlone(s: State, p: nat, q: nat)
    requires WorkInvariant(s) && WorksAt(s, p)
    requires RunnerAt(s, q) && PastClaim(s.procs[q])
    ensures p == q
  {
    assert p in s.holders && q in s.holders;
  }

  /** Starting from a state where work is open, it stays so exactly when the step is guarded. */
  lemma WorkStaysOpenExactly(s: State, step: Step)
    requires WorkInvariant(s) && WorkIsOpen(s) && Enabled(s, step)
    ensures WorkIsOpen(After(s, step)) <==> WorkGuard(s, step)
  {
    if step.Launch? {
      LauncherKeepsOpen(s, step.p, step.launcher);
    } else if step.Work? && step.runner.Write? {
      WritingKeepsOpen(s, step.p);
    } else if step.Work? {
      RunnerKeepsOpen(s, step.p, step.runner);
    } else {
      assert forall p :: WorksAt(After(s, step), p) ==> WorksAt(s, p);
    }
  }

  lemma LauncherKeepsOpen(s: State, p: nat, action: LauncherAction)
    requires WorkInvariant(s) && WorkIsOpen(s) && Enabled(s, Launch(p, action))
    ensures WorkIsOpen(AfterLauncher(s, p, action)) <==> WorkGuard(s, Launch(p, action))
  {
    var after := AfterLauncher(s, p, action);
    assert forall q :: WorksAt(after, q) ==> WorksAt(s, q);
    if action.WriteNext? {
      assert OpenProcess(s.procs[p]);
      assert forall q :: WorksAt(s, q) ==> WorksAt(after, q);
    }
  }

  lemma WritingKeepsOpen(s: State, p: nat)
    requires WorkInvariant(s) && WorkIsOpen(s) && Enabled(s, Work(p, RunnerAction.Write))
    ensures WorkIsOpen(AfterRunner(s, p, RunnerAction.Write)) <==> WorkGuard(s, Work(p, RunnerAction.Write))
  {
    var after := AfterRunner(s, p, RunnerAction.Write);
    assert forall q :: WorksAt(after, q) <==> WorksAt(s, q);
    if s.procs[p].stage.Working? {
      assert OpenProcess(s.procs[p]);
    } else if s.procs[p].stage.Completing? {
      forall q | WorksAt(s, q) ensures false {
        WorkerAlone(s, q, p);
      }
    }
  }

  lemma RunnerKeepsOpen(s: State, p: nat, action: RunnerAction)
    requires WorkInvariant(s) && WorkIsOpen(s) && Enabled(s, Work(p, action)) && !action.Write?
    ensures WorkIsOpen(AfterRunner(s, p, action)) <==> WorkGuard(s, Work(p, action))
  {
    var after := AfterRunner(s, p, action);
    assert after.disk == s.disk;
    assert forall q :: WorksAt(after, q) && q != p ==> WorksAt(s, q);
    if action.CheckPhase? {
      assert WorksAt(after, p) <==> !Refuses(RunnerArrival(s.procs[p].stage.seen));
    } else {
      assert WorksAt(after, p) ==> WorksAt(s, p);
    }
  }

  ghost predicate OpenAlong(s: State, steps: seq<Step>)
    requires Legal(Anything, s, steps)
    decreases |steps|
  {
    WorkIsOpen(s) && (steps != [] ==> OpenAlong(After(s, steps[0]), steps[1..]))
  }

  ghost predicate GuardedAlong(s: State, steps: seq<Step>)
    requires Legal(Anything, s, steps)
    decreases |steps|
  {
    steps != [] ==> WorkGuard(s, steps[0]) && GuardedAlong(After(s, steps[0]), steps[1..])
  }

  lemma WorkInvariantStep(s: State, step: Step)
    requires WorkInvariant(s) && Enabled(s, step)
    ensures WorkInvariant(After(s, step))
  {
    ClaimStep(s, step);
    HistoryStep(s, step);
    OpenTodoStep(s, step);
  }

  lemma {:induction false} OpenAlongExactly(s: State, steps: seq<Step>)
    requires WorkInvariant(s) && WorkIsOpen(s) && Legal(Anything, s, steps)
    ensures OpenAlong(s, steps) <==> GuardedAlong(s, steps)
    decreases |steps|
  {
    if steps != [] {
      var next := After(s, steps[0]);
      WorkInvariantStep(s, steps[0]);
      WorkStaysOpenExactly(s, steps[0]);
      if WorkIsOpen(next) {
        OpenAlongExactly(next, steps[1..]);
      }
    }
  }

  /** On every run whatsoever, a runner is never at work on an execution that has its
      outcome, if and only if every runner that enters its work finds the phase open
      when it reads it again under its claim, and no finalization outside the claim
      writes the outcome while a runner works. */
  lemma WorkIsOpenExactly(start: State, steps: seq<Step>)
    requires Initial(start) && Legal(Anything, start, steps)
    ensures OpenAlong(start, steps) <==> GuardedAlong(start, steps)
  {
    OpenAlongExactly(start, steps);
  }

  // ---- Acting alone -------------------------------------------------------

  /** Only the lock holder is inside the call. */
  ghost predicate LockInvariant(procs: map<nat, Process>, lock: Option<nat>) {
    forall p :: p in procs && procs[p].Launcher? && !procs[p].at.Waiting? ==> lock == Some(p)
  }

  lemma LockStep(s: State, step: Step)
    requires LockInvariant(s.procs, s.lock) && Enabled(s, step)
    ensures LockInvariant(After(s, step).procs, After(s, step).lock)
  {
    if step.Launch? {
      LockLauncherStep(s, step.p, step.launcher);
    }
  }

  lemma LockLauncherStep(s: State, p: nat, action: LauncherAction)
    requires LockInvariant(s.procs, s.lock) && LauncherAt(s, p) && LauncherMay(s, p, action)
    ensures LockInvariant(AfterLauncher(s, p, action).procs, AfterLauncher(s, p, action).lock)
  {
  }

  lemma {:induction false} LockRun(rule: Rule, s: State, steps: seq<Step>)
    requires LockInvariant(s.procs, s.lock) && Legal(rule, s, steps)
    ensures LockInvariant(Run(rule, s, steps).procs, Run(rule, s, steps).lock)
    decreases |steps|
  {
    if steps != [] {
      LockStep(s, steps[0]);
      LockRun(rule, After(s, steps[0]), steps[1..]);
    }
  }

  lemma ReachedLock(rule: Rule, s: State)
    requires Reachable(rule, s)
    ensures LockInvariant(s.procs, s.lock)
  {
    var start :| Initial(start) && Reaches(rule, start, s);
    var steps :| Legal(rule, start, steps) && Run(rule, start, steps) == s;
    LockRun(rule, start, steps);
  }

  /** A live runner that neither the PID file nor the claim shows. */
  predicate Unseen(s: State, p: nat) {
    RunnerAt(s, p) && s.pid != Some(p) && !PastClaim(s.procs[p])
  }

  /** On every run whatsoever, a launcher about to act acts alone if and only if the PID
      file names no live runner, the claim is free, and no live runner is unseen. */
  lemma ActsAloneExactly(s: State, step: Step)
    requires Reachable(Anything, s) && Allowed(Anything, s, step) && Acting(step)
    ensures NoTree(s.procs) <==> !RecordedAlive(s) && s.holders == {} && forall p :: !Unseen(s, p)
  {
    ReachedClaim(Anything, s);
    ReachedLock(Anything, s);
    if NoTree(s.procs) {
      assert forall p :: p !in s.holders;
    } else {
      var p :| p in s.procs && !s.procs[p].Launcher?;
      assert p in s.holders <==> HoldsClaim(s.procs[p]);
      assert s.procs[p].Descendant? || PastClaim(s.procs[p]) || s.pid == Some(p) || Unseen(s, p);
    }
  }
}
