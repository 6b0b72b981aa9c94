/** What holds in every interleaving, with hand-started runners and crashes anywhere:
    one process tree past the claim, and nothing written by a runner that lost it. */
module RunnerExclusion {
  import opened Wrappers
  import opened ExecutionPhases
  import opened ExecutionRecord
  import opened RunnerProtocol

  // ---- The claim ----------------------------------------------------------

  /** The claim is held exactly by the processes that are past it, or by one probe; two
      different holders belong to one runner's tree. */
  ghost predicate ClaimInvariant(procs: map<nat, Process>, holders: set<nat>) {
    && (forall p :: p in holders <==> p in procs && HoldsClaim(procs[p]))
    && (forall p, q :: p in holders && q in holders && p != q ==>
          && p in procs && q in procs && !procs[p].Launcher? && !procs[q].Launcher?
          && Tree(procs[p]) == Tree(procs[q]))
  }

  lemma ClaimMove(procs: map<nat, Process>, holders: set<nat>, p: nat, process: Process)
    requires ClaimInvariant(procs, holders)
    requires if p in procs then HoldsClaim(process) == HoldsClaim(procs[p]) && Tree(process) == Tree(procs[p])
                                && process.Launcher? == procs[p].Launcher?
             else !HoldsClaim(process)
    ensures ClaimInvariant(procs[p := process], holders)
  {
  }

  lemma ClaimLauncherStep(s: State, p: nat, action: LauncherAction)
    requires ClaimInvariant(s.procs, s.holders) && LauncherAt(s, p) && LauncherMay(s, p, action)
    ensures ClaimInvariant(AfterLauncher(s, p, action).procs, AfterLauncher(s, p, action).holders)
  {
    var after := AfterLauncher(s, p, action);
    if action.SpawnChild? {
      var child := Runner(s.nextTree, Booting);
      ClaimMove(s.procs, s.holders, action.q, child);
      ClaimMove(s.procs[action.q := child], s.holders, p, after.procs[p]);
    } else if action.KillChild? && RunnerAt(s, s.procs[p].at.child) {
      var child := s.procs[p].at.child;
      ClaimMove(s.procs - {child}, s.holders - {child}, p, after.procs[p]);
    } else if HoldsClaim(after.procs[p]) == HoldsClaim(s.procs[p]) {
      ClaimMove(s.procs, s.holders, p, after.procs[p]);
    }
  }

  lemma ClaimRunnerStep(s: State, p: nat, action: RunnerAction)
    requires ClaimInvariant(s.procs, s.holders) && RunnerAt(s, p) && RunnerMay(s, p, action)
    ensures ClaimInvariant(AfterRunner(s, p, action).procs, AfterRunner(s, p, action).holders)
  {
    var process := AfterRunner(s, p, action).procs[p];
    if HoldsClaim(process) == HoldsClaim(s.procs[p]) {
      ClaimMove(s.procs, s.holders, p, process);
    }
  }

  lemma ClaimStep(s: State, step: Step)
    requires ClaimInvariant(s.procs, s.holders) && Enabled(s, step)
    ensures ClaimInvariant(After(s, step).procs, After(s, step).holders)
  {
    match step
    case Launch(p, action) => ClaimLauncherStep(s, p, action);
    case Work(p, action) => ClaimRunnerStep(s, p, action);
    case SpawnLauncher(p) => ClaimMove(s.procs, s.holders, p, Launcher(Waiting));
    case SpawnRunnerByHand(p) => ClaimMove(s.procs, s.holders, p, Runner(s.nextTree, Booting));
    case Exit(p) =>
    case Fork(p, q) =>
  }

  lemma {:induction false} ClaimRun(rule: Rule, s: State, steps: seq<Step>)
    requires ClaimInvariant(s.procs, s.holders) && Legal(rule, s, steps)
    ensures ClaimInvariant(Run(rule, s, steps).procs, Run(rule, s, steps).holders)
    decreases |steps|
  {
    if steps != [] {
      ClaimStep(s, steps[0]);
      ClaimRun(rule, After(s, steps[0]), steps[1..]);
    }
  }

  lemma ReachedClaim(rule: Rule, s: State)
    requires Reachable(rule, s)
    ensures ClaimInvariant(s.procs, s.holders)
  {
    var start :| Initial(start) && Reaches(rule, start, s);
    var steps :| Legal(rule, start, steps) && Run(rule, start, steps) == s;
    ClaimRun(rule, start, steps);
  }

  /** Any two live processes past the claim belong to the tree of one runner, and while
      any is, no probe holds it and no other runner can take it. */
  lemma OneTreePastTheClaim(rule: Rule, s: State, p: nat, q: nat)
    requires Reachable(rule, s)
    requires p in s.procs && q in s.procs && PastClaim(s.procs[p])
    ensures PastClaim(s.procs[q]) ==> Tree(s.procs[p]) == Tree(s.procs[q])
    ensures RunnerAt(s, q) ==> !RunnerMay(s, q, TakeClaim)
    ensures LauncherAt(s, q) ==> !s.procs[q].at.Probing?
  {
    ReachedClaim(rule, s);
    assert p in s.holders;
    if HoldsClaim(s.procs[q]) {
      assert q in s.holders;
    }
  }

  // ---- Who wrote ----------------------------------------------------------

  /** Trees are numbered once; a runner that lost the claim, or has not tried it yet,
      has written nothing. */
  ghost predicate HistoryInvariant(procs: map<nat, Process>, nextTree: nat, wrote: set<nat>, beaten: set<nat>) {
    && 0 < nextTree
    && (forall p :: p in procs && procs[p].Runner? ==> 0 < procs[p].tree < nextTree)
    && (forall p, q :: p in procs && q in procs && procs[p].Runner? && procs[q].Runner? && p != q ==>
          procs[p].tree != procs[q].tree)
    && (forall t :: t in beaten ==> t < nextTree && t !in wrote)
    && (forall t :: t in wrote ==> t < nextTree)
    && (forall p :: p in procs && procs[p].Runner? && procs[p].tree in beaten ==> procs[p].stage.Beaten?)
    && (forall p :: p in procs && Untried(procs[p]) ==> procs[p].tree !in wrote)
  }

  predicate Untried(process: Process) {
    process.Runner? && (process.stage.Beaten? || process.stage.Booting? || process.stage.Arrived?)
  }

  /** A process moves on: never back before its first attempt at the claim. */
  lemma HistoryMove(procs: map<nat, Process>, nextTree: nat, wrote: set<nat>, beaten: set<nat>, p: nat, process: Process)
    requires HistoryInvariant(procs, nextTree, wrote, beaten) && p in procs
    requires process.Runner? == procs[p].Runner? && Tree(process) == Tree(procs[p])
    requires process.Runner? ==> !procs[p].stage.Beaten? && !process.stage.Beaten? && (Untried(process) ==> Untried(procs[p]))
    ensures HistoryInvariant(procs[p := process], nextTree, wrote, beaten)
    ensures process.Runner? && !Untried(process)
            ==> HistoryInvariant(procs[p := process], nextTree, wrote + {process.tree}, beaten)
  {
  }

  lemma HistoryNew(procs: map<nat, Process>, nextTree: nat, wrote: set<nat>, beaten: set<nat>, p: nat, process: Process)
    requires HistoryInvariant(procs, nextTree, wrote, beaten) && p !in procs
    requires process.Runner? ==> process == Runner(nextTree, Booting)
    ensures HistoryInvariant(procs[p := process], if process.Runner? then nextTree + 1 else nextTree, wrote, beaten)
  {
  }

  lemma HistoryLauncherStep(s: State, p: nat, action: LauncherAction)
    requires HistoryInvariant(s.procs, s.nextTree, s.wrote, s.beaten) && LauncherAt(s, p) && LauncherMay(s, p, action)
    ensures var after := AfterLauncher(s, p, action);
            HistoryInvariant(after.procs, after.nextTree, after.wrote, after.beaten)
  {
    var after := AfterLauncher(s, p, action);
    if action.SpawnChild? {
      var child := Runner(s.nextTree, Booting);
      HistoryNew(s.procs, s.nextTree, s.wrote, s.beaten, action.q, child);
      HistoryMove(s.procs[action.q := child], s.nextTree + 1, s.wrote, s.beaten, p, after.procs[p]);
    } else if action.KillChild? && RunnerAt(s, s.procs[p].at.child) {
      var child := s.procs[p].at.child;
      HistoryMove(s.procs - {child}, s.nextTree, s.wrote, s.beaten, p, after.procs[p]);
    } else {
      HistoryMove(s.procs, s.nextTree, s.wrote, s.beaten, p, after.procs[p]);
    }
  }

  /** What one action of a runner touches, and that it writes only after its attempt. */
  lemma RunnerEffect(s: State, p: nat, action: RunnerAction)
    requires RunnerAt(s, p) && RunnerMay(s, p, action) && !action.LoseClaim?
    ensures var after := AfterRunner(s, p, action);
            && p in after.procs && after.procs == s.procs[p := after.procs[p]]
            && after.procs[p].Runner? && Tree(after.procs[p]) == Tree(s.procs[p])
            && after.nextTree == s.nextTree && after.beaten == s.beaten
            && !s.procs[p].stage.Beaten? && !after.procs[p].stage.Beaten?
            && (Untried(after.procs[p]) ==> Untried(s.procs[p]))
            && (after.wrote == s.wrote || (after.wrote == s.wrote + {Tree(s.procs[p])} && !Untried(after.procs[p])))
  {
    assert s.procs[p := s.procs[p]] == s.procs;
  }

  lemma HistoryRunnerStep(s: State, p: nat, action: RunnerAction)
    requires HistoryInvariant(s.procs, s.nextTree, s.wrote, s.beaten) && RunnerAt(s, p) && RunnerMay(s, p, action)
    ensures var after := AfterRunner(s, p, action);
            HistoryInvariant(after.procs, after.nextTree, after.wrote, after.beaten)
  {
    if !action.LoseClaim? {
      RunnerEffect(s, p, action);
      HistoryMove(s.procs, s.nextTree, s.wrote, s.beaten, p, AfterRunner(s, p, action).procs[p]);
    }
  }

  lemma HistoryStep(s: State, step: Step)
    requires HistoryInvariant(s.procs, s.nextTree, s.wrote, s.beaten) && Enabled(s, step)
    ensures var after := After(s, step);
            HistoryInvariant(after.procs, after.nextTree, after.wrote, after.beaten)
  {
    match step
    case Launch(p, action) => HistoryLauncherStep(s, p, action);
    case Work(p, action) => HistoryRunnerStep(s, p, action);
    case SpawnLauncher(p) => HistoryNew(s.procs, s.nextTree, s.wrote, s.beaten, p, Launcher(Waiting));
    case SpawnRunnerByHand(p) => HistoryNew(s.procs, s.nextTree, s.wrote, s.beaten, p, Runner(s.nextTree, Booting));
    case Exit(p) =>
    case Fork(p, q) => HistoryNew(s.procs, s.nextTree, s.wrote, s.beaten, q, Descendant(Tree(s.procs[p])));
  }

  lemma {:induction false} HistoryRun(rule: Rule, s: State, steps: seq<Step>)
    requires HistoryInvariant(s.procs, s.nextTree, s.wrote, s.beaten) && Legal(rule, s, steps)
    ensures var after := Run(rule, s, steps);
            HistoryInvariant(after.procs, after.nextTree, after.wrote, after.beaten)
    decreases |steps|
  {
    if steps != [] {
      HistoryStep(s, steps[0]);
      HistoryRun(rule, After(s, steps[0]), steps[1..]);
    }
  }

  lemma ReachedHistory(rule: Rule, s: State)
    requires Reachable(rule, s)
    ensures HistoryInvariant(s.procs, s.nextTree, s.wrote, s.beaten)
  {
    var start :| Initial(start) && Reaches(rule, start, s);
    var steps :| Legal(rule, start, steps) && Run(rule, start, steps) == s;
    HistoryRun(rule, start, steps);
  }

  /** A step changes the record or the PID file only if a launcher takes it or its runner
      is noted as a writer. */
  lemma DurableChangesAreNoted(s: State, step: Step)
    requires Enabled(s, step)
    ensures var after := After(s, step);
            (after.disk, after.pid) != (s.disk, s.pid) ==>
              LauncherAt(s, step.p) || (RunnerAt(s, step.p) && s.procs[step.p].tree in after.wrote)
  {
  }

  /** The runner that loses the claim has never written and can only exit. */
  lemma LoserWritesNothing(rule: Rule, s: State, tree: nat)
    requires Reachable(rule, s) && tree in s.beaten
    ensures tree !in s.wrote
    ensures forall p, step :: RunnerAt(s, p) && s.procs[p].tree == tree && Enabled(s, step) && step.p == p
              ==> step == Exit(p)
  {
    ReachedHistory(rule, s);
    forall p, step | RunnerAt(s, p) && s.procs[p].tree == tree && Enabled(s, step) && step.p == p
      ensures step == Exit(p)
    {
    }
  }
}
