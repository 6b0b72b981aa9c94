/** A concrete run of the service through a crash, so that its laws are not about nothing. */
module ApplicationRuns {
  import opened Wrappers
  import opened Command
  import opened ApplicationService
  import Journal = JournalTransitions

  function Published(state: CommandState, receipt: Option<Receipt>): Journal.Status<Receipt> {
    Journal.Status.Status(state, 0, receipt, None)
  }

  ghost predicate Closed(region: iset<State>) {
    forall s, step: Step :: s in region && Enabled(s, step.action) ==> After(s, step) in region
  }

  lemma Does(region: iset<State>, s: State, action: Action) returns (next: State)
    requires Closed(region) && s in region && Enabled(s, action)
    ensures next in region && next == After(s, Step(0, action))
  {
    next := After(s, Step(0, action));
  }

  /** Command 3, whose executions are named after their commands. */
  ghost function Admitted(): State {
    State.State(Job(3, ShotCreate, 0, command => command), Published(Received, None), None, map[], false, None, None, map[],
                {}, false, false, {}, false)
  }

  const Prepared := Execution(7, ShotCreate, 5)

  const Landed := Completion(3, 7, 5, true, false)

  const TheReceipt := Receipt(ShotCreate, 7, Some(3))

  /** A creation runs up to its durable execution; then the service crashes. */
  lemma CrashesAfterPreparing(region: iset<State>) returns (s: State)
    requires Closed(region) && Admitted() in region
    ensures s in region
    ensures s == Admitted().(status := Published(Accepted, None), appShot := Some(7), executions := map[3 := Prepared])
  {
    s := Does(region, Admitted(), Enter);
    s := Does(region, s, Working(WorkAction.Load));
    s := Does(region, s, Working(Judge(true)));
    s := Does(region, s, Working(Seek));
    s := Does(region, s, Working(Decide(true)));
    s := Does(region, s, Working(CallEngine(true, 7)));
    s := Does(region, s, Working(Prepare(true, 5)));
    s := Does(region, s, Action.Crash);
  }

  /** A retry finds the execution, gives its receipt, and a monitor is started. */
  lemma RetriesAfterCrash(region: iset<State>) returns (s: State)
    requires Closed(region) && Admitted() in region
    ensures s in region
    ensures s == Admitted().(status := Published(Running, Some(TheReceipt)), appShot := Some(7),
                             executions := map[3 := Prepared], reconcilers := map[1 := Idle], returned := {TheReceipt})
  {
    s := CrashesAfterPreparing(region);
    s := Does(region, s, Enter);
    s := Does(region, s, Working(WorkAction.Load));
    s := Does(region, s, Working(Judge(true)));
    s := Does(region, s, Working(Seek));
    s := Does(region, s, Working(WriteRunning));
    s := Does(region, s, Spawn(1));
    s := Does(region, s, Working(Answer(true)));
  }

  /** The monitor sees the landed completion and goes on to verify its Version. */
  lemma MonitorReads(region: iset<State>) returns (s: State)
    requires Closed(region) && Admitted() in region
    ensures s in region
    ensures s == Admitted().(status := Published(Running, Some(TheReceipt)), appShot := Some(7),
                             executions := map[3 := Prepared], reconcilers := map[1 := Verifying], returned := {TheReceipt},
                             completion := Some(Landed), published := {Landed})
  {
    s := RetriesAfterCrash(region);
    s := Does(region, s, Complete(Landed));
    s := Does(region, s, Reconciling(1, ReadPhase));
    s := Does(region, s, Reconciling(1, ReadCompletion));
    s := Does(region, s, Reconciling(1, LoadStatus));
  }

  lemma MonitorCompletes(region: iset<State>) returns (s: State)
    requires Closed(region) && Admitted() in region
    ensures s in region && s.returned == {TheReceipt}
    ensures s.status == Published(CommandState.Completed, Some(TheReceipt))
  {
    s := MonitorReads(region);
    s := Does(region, s, Reconciling(1, Verify(true)));
    s := Does(region, s, Reconciling(1, ReconcilerAction.Publish));
  }

  lemma {:induction false} RunExtends(s: State, steps: seq<Step>, last: Step)
    requires Legal(s, steps) && Enabled(Run(s, steps), last.action)
    ensures Legal(s, steps + [last]) && Run(s, steps + [last]) == After(Run(s, steps), last)
    decreases |steps|
  {
    if steps == [] {
      assert steps + [last] == [last];
      assert [last][1..] == [];
    } else {
      RunExtends(After(s, steps[0]), steps[1..], last);
      assert (steps + [last])[1..] == steps[1..] + [last];
    }
  }

  lemma ReachableClosed()
    ensures Closed(iset s | Reachable(s)) && Reachable(Admitted())
  {
    assert Legal(Admitted(), []) && Run(Admitted(), []) == Admitted() && Initial(Admitted());
    forall s, step: Step | Reachable(s) && Enabled(s, step.action) ensures Reachable(After(s, step)) {
      var start, steps: seq<Step> :| Initial(start) && Legal(start, steps) && Run(start, steps) == s;
      RunExtends(start, steps, step);
    }
  }

  /** A creation whose service crashes between the durable execution and the receipt is
      answered on retry with the receipt of that execution, and completes. */
  lemma CrashedCreationCompletes() returns (s: State)
    ensures Reachable(s) && s.status.state == CommandState.Completed
    ensures s.returned == {TheReceipt} && s.status.receipt == Some(TheReceipt)
  {
    ReachableClosed();
    s := MonitorCompletes(iset state | Reachable(state));
  }
}
