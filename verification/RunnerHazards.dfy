/** Concrete runs that show where sound recovery needs its hypotheses: a loaded phase that
    goes stale, a completion that a stale phase hides, and a PID hand-off that a crash
    cuts in two. */
module RunnerHazards {
  import opened Wrappers
  import opened ExecutionPhases
  import opened ExecutionRecord
  import opened ExecutionLifecycle
  import opened Protocol = RunnerProtocol

  const Note := Ended

  /** The record after a start was noted. */
  function Started(disk: Disk): Disk {
    Perform(disk.(phase := RunnerStarted), AppendEvent(RunnerStarted, Note))
  }

  // ---- What the processes do in a row -------------------------------------

  lemma Loads(rule: Rule, region: iset<State>, s: State) returns (next: State)
    requires Closed(rule, region) && s in region
    requires LauncherAt(s, 1) && s.procs[1].at.Waiting? && s.lock == None
    ensures next in region && next == s.(procs := s.procs[1 := Launcher(Loaded(s.disk.phase))], lock := Some(1))
  {
    next := Launches(rule, region, s, 1, AcquireLock);
    next := Launches(rule, region, next, 1, LoadPhase);
  }

  lemma FindsNobody(rule: Rule, region: iset<State>, s: State) returns (next: State)
    requires Closed(rule, region) && s in region
    requires LauncherAt(s, 1) && s.procs[1].at.Loaded? && s.holders == {} && !RecordedAlive(s)
    ensures next in region && next == s.(procs := s.procs[1 := Launcher(Decided(s.procs[1].at.phase, false))])
  {
    next := Launches(rule, region, s, 1, CheckRecordedRunner);
    next := Launches(rule, region, next, 1, ProbeClaim);
    next := Launches(rule, region, next, 1, ReleaseProbe);
  }

  lemma Starts(rule: Rule, region: iset<State>, s: State, q: nat) returns (next: State)
    requires Closed(rule, region) && s in region && q !in s.procs
    requires LauncherAt(s, 1) && s.procs[1].at.Decided? && !s.procs[1].at.busy
             && RecoveryDisposition(s.procs[1].at.phase, false) == Start
    requires rule == OpenDecisions ==> !Terminal(s.disk.phase)
    requires rule == GuardedDecisions ==> s.disk.completion.None?
    ensures next in region
    ensures next == s.(procs := s.procs[q := Runner(s.nextTree, Booting)][1 := Launcher(HandingOff(q, false))],
                       pid := None, disk := Started(s.disk), nextTree := s.nextTree + 1)
  {
    next := Launches(rule, region, s, 1, BeginStart(Note));
    next := Launches(rule, region, next, 1, WriteNext);
    assert next.procs[1].at == Starting([AppendEvent(RunnerStarted, Note)]);
    next := Launches(rule, region, next, 1, WriteNext);
    assert next.procs[1].at == Starting([]);
    next := Launches(rule, region, next, 1, SpawnChild(q));
    assert next.procs == s.procs[q := Runner(s.nextTree, Booting)][1 := Launcher(HandingOff(q, false))];
  }

  /** A first launcher 1 finds a prepared execution and starts runner 10. */
  lemma FirstStart(rule: Rule, region: iset<State>, start: State) returns (s: State)
    requires Closed(rule, region) && Initial(start) && start in region
    ensures s in region
    ensures s == start.(procs := map[1 := Launcher(HandingOff(10, false)), 10 := Runner(1, Booting)],
                        lock := Some(1), disk := Started(start.disk), nextTree := 2)
  {
    s := After(start, SpawnLauncher(1));
    assert s in region;
    s := Loads(rule, region, s);
    s := FindsNobody(rule, region, s);
    s := Starts(rule, region, s, 10);
  }

  /** Runner `p` performs all its writes. */
  lemma WritesAll(rule: Rule, region: iset<State>, s: State, p: nat) returns (next: State)
    requires Closed(rule, region) && s in region && RunnerAt(s, p)
    requires s.procs[p].stage.Completing? || s.procs[p].stage.FailureWriting?
    ensures next in region
    ensures next == s.(procs := s.procs[p := Runner(s.procs[p].tree,
                                                    if s.procs[p].stage.Completing? then Completing([]) else FailureWriting([]))],
                       disk := PerformAll(s.disk, s.procs[p].stage.todo), wrote := next.wrote)
  {
    var todo := s.procs[p].stage.todo;
    next := WritesSome(rule, region, s, p, |todo|);
    assert todo[..|todo|] == todo && todo[|todo|..] == [];
  }

  /** The record that a runner failing at once leaves, and the one a completion leaves. */
  function FailedRecord(disk: Disk): Disk {
    PerformAll(disk, CompleteWrites(disk, Closing(false, false, false, false)))
  }

  function CompletedRecord(disk: Disk): Disk {
    PerformAll(disk, CompleteWrites(disk, Closing(false, true, true, false)))
  }

  lemma FailsFast(rule: Rule, region: iset<State>, s: State, p: nat) returns (next: State)
    requires Closed(rule, region) && s in region && RunnerAt(s, p)
    requires s.procs[p].stage == Booting && s.holders == {} && !Terminal(s.disk.phase) && s.disk.completion.None?
    ensures next in region
    ensures next == s.(procs := s.procs[p := Runner(s.procs[p].tree, Announcing)], pid := None,
                       disk := FailedRecord(s.disk), wrote := next.wrote)
  {
    next := Works(rule, region, s, p, Fail);
    next := Works(rule, region, next, p, FinalizeFailure(None, false));
    next := WritesAll(rule, region, next, p);
    next := Works(rule, region, next, p, FailureForget);
  }

  /** Runner `p` takes the free claim, records itself and passes its phase check. */
  lemma Enters(rule: Rule, region: iset<State>, s: State, p: nat) returns (next: State)
    requires Closed(rule, region) && s in region && RunnerAt(s, p)
    requires s.procs[p].stage == Arrived(RunnerStarted) && s.holders == {} && s.pid in {None, Some(p)}
    ensures next in region
    ensures next == s.(procs := s.procs[p := Runner(s.procs[p].tree, Working(RunnerStarted, []))], holders := {p},
                       pid := Some(p), wrote := next.wrote)
  {
    next := Works(rule, region, s, p, TakeClaim);
    next := Works(rule, region, next, p, RecordPid);
    next := Works(rule, region, next, p, CheckPhase);
  }

  lemma Completes(rule: Rule, region: iset<State>, s: State, p: nat) returns (next: State)
    requires Closed(rule, region) && s in region && RunnerAt(s, p)
    requires s.procs[p].stage == Working(s.disk.phase, []) && s.holders == {p}
    ensures next in region
    ensures next == s.(procs := s.procs[p := Runner(s.procs[p].tree, Announcing)], holders := {}, pid := None,
                       disk := CompletedRecord(s.disk), wrote := next.wrote)
  {
    assert s.disk.(phase := s.disk.phase) == s.disk;
    next := Works(rule, region, s, p, RunnerAction.Complete(Closing(false, true, true, false)));
    next := WritesAll(rule, region, next, p);
    next := Works(rule, region, next, p, ForgetPid);
    next := Works(rule, region, next, p, DropClaim);
  }

  // ---- What the records hold ----------------------------------------------

  /** Completing adds one terminal event and leaves its own completion, whatever there was. */
  lemma CompletionAdds(disk: Disk, closing: Closing)
    ensures var after, completion := PerformAll(disk, CompleteWrites(disk, closing)), ClosingCompletion(disk.binding, closing);
            && after.completion == Some(completion) && after.phase == ImpliedPhase(completion)
            && after.binding == disk.binding
            && exists last: Event :: last.phase == ImpliedPhase(completion)
                 && TerminalEvents(after.events) == TerminalEvents(disk.events) + [last]
  {
    var before := BeforeCompletion(disk.phase, closing);
    var completion := ClosingCompletion(disk.binding, closing);
    var publish := PublishCompletion(completion);
    var d := PerformAll(disk, before);
    OpenWritesAddNothing(disk, before);
    PerformConcat(disk, before + [publish], PhaseUpdate(ImpliedPhase(completion), Ended));
    PerformConcat(disk, before, [publish]);
    assert PerformAll(d, [publish]) == PerformAll(Perform(d, publish), []);
    PhaseUpdatePerformed(Perform(d, publish), ImpliedPhase(completion), Ended);
    var last := Event(|d.events| + 1, ImpliedPhase(completion), Ended);
    TerminalEventsConcat(d.events, [last]);
    assert [last][1..] == [];
  }

  /** Writes without a terminal event or a completion. */
  lemma {:induction false} OpenWritesAddNothing(disk: Disk, writes: seq<Write>)
    requires forall i :: 0 <= i < |writes| ==> !writes[i].PublishCompletion? && !Terminal(writes[i].phase)
    ensures TerminalEvents(PerformAll(disk, writes).events) == TerminalEvents(disk.events)
    ensures PerformAll(disk, writes).binding == disk.binding
    decreases |writes|
  {
    if writes != [] {
      var next := Perform(disk, writes[0]);
      if writes[0].AppendEvent? {
        var event := Event(|disk.events| + 1, writes[0].phase, writes[0].report);
        TerminalEventsConcat(disk.events, [event]);
        assert [event][1..] == [];
      }
      OpenWritesAddNothing(next, writes[1..]);
    }
  }

  lemma StartedAdds(disk: Disk)
    ensures TerminalEvents(Started(disk).events) == TerminalEvents(disk.events)
    ensures Started(disk).binding == disk.binding && Started(disk).completion == disk.completion
  {
    OpenWritesAddNothing(disk, PhaseUpdate(RunnerStarted, Note));
    PhaseUpdatePerformed(disk, RunnerStarted, Note);
  }

  lemma FailedAdds(disk: Disk)
    ensures var after := FailedRecord(disk);
            && after.phase == ExecutionFailed && after.binding == disk.binding
            && after.completion.Some? && !after.completion.value.landed
            && exists last: Event :: last.phase == ExecutionFailed
                 && TerminalEvents(after.events) == TerminalEvents(disk.events) + [last]
  {
    CompletionAdds(disk, Closing(false, false, false, false));
  }

  lemma CompletedAdds(disk: Disk)
    ensures var after := CompletedRecord(disk);
            && after.phase == ExecutionCompleted && after.binding == disk.binding
            && after.completion.Some? && after.completion.value.landed
            && exists last: Event :: last.phase == ExecutionCompleted
                 && TerminalEvents(after.events) == TerminalEvents(disk.events) + [last]
  {
    CompletionAdds(disk, Closing(false, true, true, false));
  }

  // ---- A stale phase ------------------------------------------------------

  lemma LoadsAndFails(rule: Rule, region: iset<State>, start: State) returns (s: State)
    requires Closed(rule, region) && Initial(start) && start in region
    ensures s in region && s.holders == {} && s.lock == Some(1) && s.nextTree == 2 && s.pid == None
    ensures s.procs == map[1 := Launcher(Loaded(RunnerStarted)), 10 := Runner(1, Announcing)]
    ensures s.disk == FailedRecord(Started(start.disk))
  {
    s := FirstStart(rule, region, start);
    s := Launches(rule, region, s, 1, RecordChild);
    s := Loads(rule, region, s);
    s := FailsFast(rule, region, s, 10);
  }

  /** Called again, the launcher loads the phase just before runner 10 fails fast and
      finalizes, and checks for a runner just after: it decides to start a finished one. */
  lemma StaleDecision(rule: Rule, region: iset<State>, start: State) returns (s: State)
    requires Closed(rule, region) && Initial(start) && start in region
    ensures s in region && s.holders == {} && s.lock == Some(1) && s.nextTree == 2
    ensures s.procs == map[1 := Launcher(Decided(RunnerStarted, false)), 10 := Runner(1, Announcing)]
    ensures s.disk == FailedRecord(Started(start.disk))
  {
    s := LoadsAndFails(rule, region, start);
    s := FindsNobody(rule, region, s);
  }

  /** No rule on decisions holds by itself: from every prepared execution, launchers that
      have kept to it reach a decision that does not, the execution having failed. */
  lemma SoundRunsReachAStaleDecision(rule: Rule, start: State) returns (s: State)
    requires Initial(start)
    ensures Reaches(rule, start, s)
    ensures LauncherAt(s, 1) && s.procs[1].at == Decided(RunnerStarted, false)
    ensures s.disk.phase == ExecutionFailed && s.disk.completion.Some?
  {
    ReachesClosed(rule, start);
    var region := iset t | Reaches(rule, start, t);
    s := StaleDecision(rule, region, start);
    FailedAdds(Started(start.disk));
  }

  lemma RestartsFinished(region: iset<State>, start: State) returns (s: State)
    requires Closed(WholeHandOffs, region) && Initial(start) && start in region
    ensures s in region && s.holders == {} && s.pid == None
    ensures s.procs == map[1 := Launcher(HandingOff(11, false)), 10 := Runner(1, Announcing), 11 := Runner(2, Booting)]
    ensures s.disk == Started(FailedRecord(Started(start.disk)))
  {
    s := StaleDecision(WholeHandOffs, region, start);
    s := Starts(WholeHandOffs, region, s, 11);
  }

  /** Acting on it puts a second live runner on the execution, which is unfinished again. */
  lemma StaleDecisionRestartsFinished(start: State) returns (s: State)
    requires Initial(start)
    ensures Reaches(WholeHandOffs, start, s)
    ensures s.disk.phase == RunnerStarted && RunnerAt(s, 10) && RunnerAt(s, 11)
    ensures s.disk.completion.Some? && |TerminalEvents(s.disk.events)| == 1
  {
    ReachesClosed(WholeHandOffs, start);
    var region := iset t | Reaches(WholeHandOffs, start, t);
    s := RestartsFinished(region, start);
    RestartedRecord(start.disk);
  }

  lemma RestartedRecord(disk: Disk)
    requires NoTerminalEvent(disk.events)
    ensures var restarted := Started(FailedRecord(Started(disk)));
            && restarted.phase == RunnerStarted && restarted.completion.Some? && !restarted.completion.value.landed
            && exists first: Event :: first.phase == ExecutionFailed && TerminalEvents(restarted.events) == [first]
  {
    TerminalEventsOfJournal(disk.events);
    StartedAdds(disk);
    FailedAdds(Started(disk));
    StartedAdds(FailedRecord(Started(disk)));
  }

  lemma SecondRunnerCompletes(region: iset<State>, start: State) returns (s: State)
    requires Closed(WholeHandOffs, region) && Initial(start) && start in region
    ensures s in region && s.disk == CompletedRecord(Started(FailedRecord(Started(start.disk))))
  {
    s := RestartsFinished(region, start);
    s := Works(WholeHandOffs, region, s, 11, LoadRecord);
    s := Enters(WholeHandOffs, region, s, 11);
    s := Completes(WholeHandOffs, region, s, 11);
  }

  lemma TwoOutcomes(disk: Disk)
    requires NoTerminalEvent(disk.events)
    ensures var twice := CompletedRecord(Started(FailedRecord(Started(disk))));
            && twice.completion.Some? && twice.completion.value.landed
            && exists first: Event, second: Event ::
                 first.phase == ExecutionFailed && second.phase == ExecutionCompleted
                 && TerminalEvents(twice.events) == [first, second]
  {
    var restarted := Started(FailedRecord(Started(disk)));
    RestartedRecord(disk);
    CompletedAdds(restarted);
    var first: Event :| first.phase == ExecutionFailed && TerminalEvents(restarted.events) == [first];
    var second: Event :| second.phase == ExecutionCompleted
      && TerminalEvents(CompletedRecord(restarted).events) == TerminalEvents(restarted.events) + [second];
    assert [first] + [second] == [first, second];
  }

  /** Duplicate terminal events are refused, whatever the evidence. */
  lemma TwoOutcomesRefused(disk: Disk, evidence: Evidence, changed: bool)
    requires |TerminalEvents(disk.events)| == 2 && disk.completion.Some?
    ensures FinalizeWrites(disk, evidence, changed).Err?
  {
  }

  /** That runner never looks for an outcome: when it completes, the published completion
      is replaced, the journal has two contradicting terminal events, and whatever the
      evidence, the record can never be reconciled again. */
  lemma StaleDecisionReplacesOutcome(start: State) returns (s: State)
    requires Initial(start)
    ensures Reaches(WholeHandOffs, start, s)
    ensures exists first: Event, second: Event ::
              first.phase == ExecutionFailed && second.phase == ExecutionCompleted
              && TerminalEvents(s.disk.events) == [first, second]
    ensures s.disk.completion.Some? && s.disk.completion.value.landed
    ensures forall evidence, changed :: FinalizeWrites(s.disk, evidence, changed).Err?
  {
    ReachesClosed(WholeHandOffs, start);
    var region := iset t | Reaches(WholeHandOffs, start, t);
    s := SecondRunnerCompletes(region, start);
    TwoOutcomes(start.disk);
    forall evidence, changed ensures FinalizeWrites(s.disk, evidence, changed).Err? {
      TwoOutcomesRefused(s.disk, evidence, changed);
    }
  }

  // ---- A hidden completion ------------------------------------------------

  const Unaccepted := Closing(false, false, false, false)

  function WaitingRecord(disk: Disk): Disk {
    Perform(disk.(phase := WaitingForDevice), AppendEvent(WaitingForDevice, Note))
  }

  /** The record of a runner that stopped just after it had published its failure. */
  function PublishedRecord(disk: Disk): Disk {
    PerformAll(disk, CompleteWrites(disk, Unaccepted)[..5])
  }

  lemma PublishedHas(disk: Disk)
    requires disk.phase == WaitingForDevice
    ensures |CompleteWrites(disk, Unaccepted)| == 7
    ensures PublishedRecord(disk).completion == Some(ClosingCompletion(disk.binding, Unaccepted))
    ensures PublishedRecord(disk).phase == ValidationCompleted && PublishedRecord(disk).binding == disk.binding
  {
    var before := BeforeCompletion(disk.phase, Unaccepted);
    var publish := PublishCompletion(ClosingCompletion(disk.binding, Unaccepted));
    var d := PerformAll(disk, before);
    assert CompleteWrites(disk, Unaccepted)[..5] == before + [publish];
    PerformConcat(disk, before, [publish]);
    assert PerformAll(d, [publish]) == PerformAll(Perform(d, publish), []);
    PerformConcat(disk, PhaseUpdate(ValidationStarted, CheckingEvidence), PhaseUpdate(ValidationCompleted, ValidationObserved));
    PhaseUpdatePerformed(disk, ValidationStarted, CheckingEvidence);
    PhaseUpdatePerformed(PerformAll(disk, PhaseUpdate(ValidationStarted, CheckingEvidence)), ValidationCompleted, ValidationObserved);
    assert before == PhaseUpdate(ValidationStarted, CheckingEvidence) + PhaseUpdate(ValidationCompleted, ValidationObserved);
  }

  /** Runner 10 is handed off, enters and works. */
  lemma FirstRunnerWorks(region: iset<State>, start: State) returns (s: State)
    requires Closed(OpenDecisions, region) && Initial(start) && start in region
    ensures s in region && s.holders == {10} && s.pid == Some(10) && s.lock == None
    ensures s.procs == map[1 := Launcher(Waiting), 10 := Runner(1, Working(RunnerStarted, []))]
    ensures s.disk == Started(start.disk) && s.nextTree == 2
  {
    s := FirstStart(OpenDecisions, region, start);
    s := Launches(OpenDecisions, region, s, 1, RecordChild);
    s := Works(OpenDecisions, region, s, 10, LoadRecord);
    s := Enters(OpenDecisions, region, s, 10);
  }

  /** It waits for the device while the launcher loads the phase. */
  lemma WaitsAndLoads(region: iset<State>, start: State) returns (s: State)
    requires Closed(OpenDecisions, region) && Initial(start) && start in region
    ensures s in region && s.holders == {10} && s.pid == Some(10) && s.lock == Some(1)
    ensures s.procs == map[1 := Launcher(Loaded(WaitingForDevice)), 10 := Runner(1, Working(WaitingForDevice, []))]
    ensures s.disk == WaitingRecord(Started(start.disk)) && s.nextTree == 2
  {
    s := FirstRunnerWorks(region, start);
    s := Works(OpenDecisions, region, s, 10, RunnerAction.Progress(WaitingForDevice, Note));
    s := Works(OpenDecisions, region, s, 10, RunnerAction.Write);
    assert s.procs[10].stage == Working(WaitingForDevice, [AppendEvent(WaitingForDevice, Note)]);
    s := Works(OpenDecisions, region, s, 10, RunnerAction.Write);
    assert s.procs[10].stage == Working(WaitingForDevice, []);
    s := Loads(OpenDecisions, region, s);
  }

  lemma Publishes(region: iset<State>, start: State) returns (s: State)
    requires Closed(OpenDecisions, region) && Initial(start) && start in region
    ensures s in region && s.holders == {10} && s.pid == Some(10) && s.lock == Some(1)
    ensures s.procs.Keys == {1, 10} && s.procs[1] == Launcher(Loaded(WaitingForDevice)) && s.procs[10].Runner?
    ensures s.disk == PublishedRecord(WaitingRecord(Started(start.disk)))
  {
    s := WaitsAndLoads(region, start);
    var waiting := s.disk;
    assert waiting.(phase := waiting.phase) == waiting;
    PublishedHas(waiting);
    s := Works(OpenDecisions, region, s, 10, RunnerAction.Complete(Unaccepted));
    s := WritesSome(OpenDecisions, region, s, 10, 5);
  }

  /** It publishes its failure and crashes; the launcher still means to resume delivery. */
  lemma PublishesAndCrashes(region: iset<State>, start: State) returns (s: State)
    requires Closed(OpenDecisions, region) && Initial(start) && start in region
    ensures s in region && s.holders == {}
    ensures s.procs == map[1 := Launcher(Decided(WaitingForDevice, false))]
    ensures s.disk == PublishedRecord(WaitingRecord(Started(start.disk)))
  {
    s := Publishes(region, start);
    assert Allowed(OpenDecisions, s, Exit(10));
    s := After(s, Exit(10));
    assert s.holders == {};
    s := FindsNobody(OpenDecisions, region, s);
  }

  /** The launcher resumes; its runner finds the validation completed, is let in as if it
      were fresh, and publishes an outcome of its own. */
  lemma ResumedRunnerPublishes(region: iset<State>, s: State) returns (after: State)
    requires Closed(OpenDecisions, region) && s in region
    requires s.procs == map[1 := Launcher(Decided(WaitingForDevice, false))] && s.holders == {}
    requires s.disk.phase == ValidationCompleted
    ensures after in region && after.disk == CompletedRecord(s.disk)
  {
    after := Launches(OpenDecisions, region, s, 1, BeginResume);
    after := Launches(OpenDecisions, region, after, 1, SpawnChild(11));
    after := EntersWork(OpenDecisions, region, after, 11);
    after := Completes(OpenDecisions, region, after, 11);
  }

  /** An open phase does not mean that there is no outcome yet: launchers that act only on
      open phases still let a published completion be replaced by its opposite. */
  lemma OpenDecisionReplacesOutcome(start: State) returns (s: State, after: State)
    requires Initial(start)
    ensures Reaches(OpenDecisions, start, s) && Reaches(OpenDecisions, s, after)
    ensures s.disk.completion.Some? && !s.disk.completion.value.landed
    ensures after.disk.completion.Some? && after.disk.completion.value.landed
  {
    ReachesClosed(OpenDecisions, start);
    var region := iset t | Reaches(OpenDecisions, start, t);
    s := PublishesAndCrashes(region, start);
    PublishedHas(WaitingRecord(Started(start.disk)));
    ReachesClosed(OpenDecisions, s);
    var onward := iset t | Reaches(OpenDecisions, s, t);
    after := ResumedRunnerPublishes(onward, s);
    CompletedAdds(s.disk);
  }

  // ---- A cut hand-off -----------------------------------------------------

  /** A launcher that crashes between spawning runner 10 and recording it lets another
      start runner 11; runner 10, having loaded before, then works on a finished execution. */
  lemma CutHandOff(region: iset<State>, start: State) returns (s: State)
    requires Closed(Anything, region) && Initial(start) && start in region
    ensures s in region && s.holders == {} && s.pid == Some(11)
    ensures RunnerAt(s, 10) && s.procs[10].stage == Arrived(RunnerStarted)
    ensures RunnerAt(s, 11) && s.procs[11].stage == Arrived(RunnerStarted) && s.disk.phase == RunnerStarted
  {
    s := FirstStart(Anything, region, start);
    s := Works(Anything, region, s, 10, LoadRecord);
    assert Allowed(Anything, s, Exit(1));
    s := After(s, Exit(1));
    assert Allowed(Anything, s, SpawnLauncher(1));
    s := After(s, SpawnLauncher(1));
    s := Loads(Anything, region, s);
    s := FindsNobody(Anything, region, s);
    s := Starts(Anything, region, s, 11);
    s := Launches(Anything, region, s, 1, RecordChild);
    s := Works(Anything, region, s, 11, LoadRecord);
  }

  lemma CutHandOffRunsFinishedExecution(start: State) returns (s: State)
    requires Initial(start)
    ensures Reaches(Anything, start, s)
    ensures s.disk.phase == ExecutionCompleted && RunnerAt(s, 10) && s.procs[10].stage.Working?
  {
    ReachesClosed(Anything, start);
    var region := iset t | Reaches(Anything, start, t);
    s := CutHandOff(region, start);
    s := Enters(Anything, region, s, 11);
    var before := s.disk;
    s := Completes(Anything, region, s, 11);
    s := Enters(Anything, region, s, 10);
    CompletedAdds(before);
  }
}
