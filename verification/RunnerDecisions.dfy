/** What a launcher has to read again under its lock before it starts, resumes, or reverts
    a start: exactly that, for the execution to keep its one outcome in every run. */
module RunnerDecisions {
  import opened Wrappers
  import opened ExecutionPhases
  import opened ExecutionRecord
  import opened ExecutionLifecycle
  import opened Protocol = RunnerProtocol
  import opened RunnerExclusion
  import opened RunnerRecord

  // ---- Guarded runs -------------------------------------------------------

  /** In every run whose launchers restart and revert nothing that has its outcome, and
      from any point of it on: the record stays recoverable, with one terminal event at
      most, a published completion is never replaced, and once the outcome is complete
      nothing is written any more. */
  lemma GuardedRunsKeepRecord(s: State, t: State)
    requires Reachable(GuardedDecisions, s) && Reaches(GuardedDecisions, s, t)
    ensures Kept(s.disk, t.disk) && |TerminalEvents(t.disk.events)| <= 1
    ensures Settled(s.disk) ==> t.disk == s.disk
  {
    var runner := ReachedRecord(s);
    var steps :| Legal(GuardedDecisions, s, steps) && Protocol.Run(GuardedDecisions, s, steps) == t;
    var last := RecordRun(s, runner, steps);
    AtMostOneTerminalEvent(t.disk);
    if Settled(s.disk) {
      ClosedRun(s, steps);
    }
  }

  lemma {:induction false} ClosedRun(s: State, steps: seq<Step>)
    requires ClosedInvariant(s) && Legal(GuardedDecisions, s, steps)
    ensures Protocol.Run(GuardedDecisions, s, steps).disk == s.disk
    decreases |steps|
  {
    if steps != [] {
      ClosedStep(s, steps[0]);
      ClosedRun(After(s, steps[0]), steps[1..]);
    }
  }

  // ---- Unguarded decisions ------------------------------------------------

  lemma {:induction false} Bounded(keys: set<nat>) returns (bound: nat)
    ensures forall k :: k in keys ==> k < bound
    decreases |keys|
  {
    if keys == {} {
      bound := 0;
    } else {
      var k :| k in keys;
      var rest := Bounded(keys - {k});
      assert forall j :: j in keys ==> j == k || j in keys - {k};
      bound := if rest > k then rest else k + 1;
    }
  }

  lemma UnusedNumber(procs: map<nat, Process>) returns (q: nat)
    ensures q !in procs
  {
    q := Bounded(procs.Keys);
    assert q in procs.Keys ==> q < q;
  }

  /** A nonterminal phase over a terminal event. */
  lemma Overwrites(region: iset<State>, s: State, p: nat, next: OpenPhase, report: Report) returns (t: State)
    requires Closed(GuardedDecisions, region) && s in region && LauncherAt(s, p)
    requires s.procs[p].at in {Starting(PhaseUpdate(next, report)), Reverting(PhaseUpdate(next, report))}
    requires !NoTerminalEvent(s.disk.events)
    ensures t in region && !Recoverable(t.disk)
  {
    t := Launches(GuardedDecisions, region, s, p, WriteNext);
    assert t.disk == s.disk.(phase := next);
  }

  /** A runner at work publishes, whatever has been published before. */
  lemma Republishes(region: iset<State>, s: State, q: nat, closing: Closing) returns (t: State)
    requires Closed(GuardedDecisions, region) && s in region && RunnerAt(s, q)
    requires s.procs[q].stage == Working(s.disk.phase, [])
    ensures t in region && t.disk.completion == Some(ClosingCompletion(s.disk.binding, closing))
  {
    assert s.disk.(phase := s.disk.phase) == s.disk;
    var writes := CompleteWrites(s.disk, closing);
    var power := |BeforeCompletion(s.disk.phase, closing)| + 1;
    var completing := Works(GuardedDecisions, region, s, q, RunnerAction.Complete(closing));
    t := WritesSome(GuardedDecisions, region, completing, q, power);
    PublicationReplaces(s.disk, closing, power);
    assert power < |writes|;
  }

  /** A child spawned on a record that has a completion and lets it in replaces it. */
  lemma ChildReplaces(region: iset<State>, s: State, p: nat) returns (t: State)
    requires Closed(GuardedDecisions, region) && s in region && LauncherAt(s, p)
    requires s.procs[p].at == Starting([]) || s.procs[p].at.Resuming?
    requires s.holders == {} && s.pid.None? && !Refuses(RunnerArrival(s.disk.phase)) && s.disk.completion.Some?
    ensures t in region && t.disk.completion != s.disk.completion
  {
    var q := UnusedNumber(s.procs);
    var spawned := Launches(GuardedDecisions, region, s, p, SpawnChild(q));
    var working := EntersWork(GuardedDecisions, region, spawned, q);
    t := Republishes(region, working, q, Closing(!s.disk.completion.value.cancelled, false, false, false));
  }

  lemma StartedReplaces(region: iset<State>, s: State, p: nat, report: Report) returns (t: State)
    requires Closed(GuardedDecisions, region) && s in region && LauncherAt(s, p)
    requires s.procs[p].at == Starting(PhaseUpdate(RunnerStarted, report))
    requires s.holders == {} && s.pid.None? && s.disk.completion.Some?
    ensures t in region && t.disk.completion != s.disk.completion
  {
    var written := Launches(GuardedDecisions, region, s, p, WriteNext);
    assert written.procs[p].at == Starting([AppendEvent(RunnerStarted, report)]);
    var started := Launches(GuardedDecisions, region, written, p, WriteNext);
    assert started.procs[p].at == Starting([]);
    t := ChildReplaces(region, started, p);
  }

  /** Every guarded continuation of the step keeps the record. */
  ghost predicate Safe(s: State, step: Step)
    requires Protocol.Enabled(s, step)
  {
    forall t :: Reaches(GuardedDecisions, After(s, step), t) ==> Kept(s.disk, t.disk)
  }

  lemma NotSettled(disk: Disk)
    requires !Refuses(RunnerArrival(disk.phase))
    ensures !Settled(disk)
  {
  }

  /** Before the outcome, a launcher that found nobody finds the claim free. */
  lemma ClaimStaysFree(s: State, p: nat)
    requires Reachable(GuardedDecisions, s) && LauncherAt(s, p) && s.procs[p].at.Decided? && !s.procs[p].at.busy
    requires !Settled(s.disk)
    ensures s.holders == {}
  {
    var runner := ReachedRecord(s);
  }

  lemma UnguardedStart(s: State, p: nat, report: Report)
    requires Reachable(GuardedDecisions, s) && Protocol.Enabled(s, Launch(p, BeginStart(report)))
    requires s.disk.completion.Some?
    ensures !Safe(s, Launch(p, BeginStart(report)))
  {
    var next := After(s, Launch(p, BeginStart(report)));
    var region := iset t | Reaches(GuardedDecisions, next, t);
    ReachesClosed(GuardedDecisions, next);
    if Settled(s.disk) {
      var t := Overwrites(region, next, p, RunnerStarted, report);
    } else {
      ClaimStaysFree(s, p);
      var t := StartedReplaces(region, next, p, report);
    }
  }

  lemma UnguardedResume(s: State, p: nat)
    requires Reachable(GuardedDecisions, s) && Protocol.Enabled(s, Launch(p, BeginResume))
    requires s.disk.completion.Some? && !Refuses(RunnerArrival(s.disk.phase))
    ensures !Safe(s, Launch(p, BeginResume))
  {
    var next := After(s, Launch(p, BeginResume));
    ReachesClosed(GuardedDecisions, next);
    NotSettled(s.disk);
    ClaimStaysFree(s, p);
    var region := iset t | Reaches(GuardedDecisions, next, t);
    var t := ChildReplaces(region, next, p);
  }

  lemma UnguardedRevert(s: State, p: nat, linked: bool, report: Report)
    requires Reachable(GuardedDecisions, s) && Protocol.Enabled(s, Launch(p, KillChild(linked, report)))
    requires !s.procs[p].at.resuming && !NoTerminalEvent(s.disk.events)
    ensures !Safe(s, Launch(p, KillChild(linked, report)))
  {
    var next := After(s, Launch(p, KillChild(linked, report)));
    ReachesClosed(GuardedDecisions, next);
    var region := iset t | Reaches(GuardedDecisions, next, t);
    var t := Overwrites(region, next, p, Prepared, report);
  }

  /** The guard is exact: a step that comes next in such a run is safe, whatever follows,
      if and only if a start finds no completion, a resumption finds none or a phase that
      its runner will refuse, and the revert of a start finds no terminal event. Every
      other step, finalization included, is safe as it is. */
  lemma SafeExactlyWhenGuarded(s: State, step: Step)
    requires Reachable(GuardedDecisions, s) && Allowed(WholeHandOffs, s, step)
    ensures Safe(s, step) <==> Guard(s, step)
  {
    if Guard(s, step) {
      forall t | Reaches(GuardedDecisions, After(s, step), t) ensures Kept(s.disk, t.disk) {
        ReachableAfter(GuardedDecisions, s, step);
        GuardedStepKeeps(s, step);
        GuardedRunsKeepRecord(After(s, step), t);
      }
    } else if step.launcher.BeginStart? {
      UnguardedStart(s, step.p, step.launcher.report);
    } else if step.launcher.BeginResume? {
      UnguardedResume(s, step.p);
    } else {
      UnguardedRevert(s, step.p, step.launcher.linked, step.launcher.report);
    }
  }

  lemma GuardedStepKeeps(s: State, step: Step)
    requires Reachable(GuardedDecisions, s) && Allowed(GuardedDecisions, s, step)
    ensures Kept(s.disk, After(s, step).disk)
  {
    var runner := ReachedRecord(s);
    RecordStep(s, runner, step);
  }
}
