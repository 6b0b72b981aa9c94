/** Completing an execution and finalizing an abandoned one, as durable writes that may
    stop anywhere, and the record invariant that every such run keeps. */
module ExecutionLifecycle {
  import opened Wrappers
  import opened ExecutionPhases
  import opened ExecutionRecord

  /** How a harness run ended, as `complete_execution` receives it. */
  datatype Closing = Closing(cancelled: bool, accepted: bool, validationPassed: bool, workspaceChanged: bool)

  function ClosingCompletion(binding: Binding, closing: Closing): Completion {
    Completion(true, binding, closing.accepted && closing.validationPassed, closing.cancelled)
  }


  function ChangeNoted(phase: Phase, closing: Closing): seq<Write> {
    if closing.workspaceChanged && phase != WorkspaceChanged then PhaseUpdate(WorkspaceChanged, WorkspaceDiffers) else []
  }

  function BeforeCompletion(phase: Phase, closing: Closing): seq<Write> {
    ChangeNoted(phase, closing)
    + PhaseUpdate(ValidationStarted, CheckingEvidence)
    + PhaseUpdate(ValidationCompleted, ValidationObserved)
  }

  /** `complete_execution`: the completion is published before the terminal phase. */
  function CompleteWrites(disk: Disk, closing: Closing): seq<Write> {
    var completion := ClosingCompletion(disk.binding, closing);
    BeforeCompletion(disk.phase, closing)
    + [PublishCompletion(completion)]
    + PhaseUpdate(ImpliedPhase(completion), Ended)
  }

  /** What independent verification of the accepted Version said, if it could be read. */
  type Evidence = Option<(bool, bool)>

  predicate Landed(evidence: Evidence) {
    evidence.Some? && evidence.value.0 && evidence.value.1
  }

  /** `finalize_stalled_execution`. */
  function FinalizeWrites(disk: Disk, evidence: Evidence, workspaceChanged: bool): Result<seq<Write>, Refusal> {
    match disk.completion
    case Some(completion) =>
      if completion.landed && evidence.None? then Err(EvidenceUnavailable)
      else ReconcileWrites(disk, completion, completion.landed ==> Landed(evidence))
    case None =>
      if Terminal(disk.phase) then Ok([])
      else
        var (accepted, passed) := if evidence.Some? then evidence.value else (false, false);
        Ok(CompleteWrites(disk, Closing(false, accepted, passed, workspaceChanged)))
  }

  // ---- Lists of writes ----------------------------------------------------

  lemma {:induction false} PerformConcat(disk: Disk, a: seq<Write>, b: seq<Write>)
    ensures PerformAll(disk, a + b) == PerformAll(PerformAll(disk, a), b)
    decreases |a|
  {
    if a == [] {
      assert a + b == b;
    } else {
      assert (a + b)[1..] == a[1..] + b;
      PerformConcat(Perform(disk, a[0]), a[1..], b);
    }
  }

  /** A stop inside a list of operations is a stop inside one of them. */
  lemma InterruptedConcat(disk: Disk, a: seq<Write>, b: seq<Write>, power: nat)
    ensures Interrupted(disk, a + b, power) ==
            if power < |a| then Interrupted(disk, a, power)
            else Interrupted(PerformAll(disk, a), b, power - |a|)
  {
    if power < |a| {
      assert (a + b)[..power] == a[..power];
    } else if power < |a + b| {
      assert (a + b)[..power] == a + b[..power - |a|];
      PerformConcat(disk, a, b[..power - |a|]);
    } else {
      PerformConcat(disk, a, b);
    }
  }

  // ---- The record invariant -----------------------------------------------

  /** What every run leaves on disk: no completion and nothing terminal, or a completion
      of this execution and a terminal phase and event that can only be its own. */
  ghost predicate Recoverable(disk: Disk) {
    match disk.completion
    case None => Contiguous(disk.events) && !Terminal(disk.phase) && NoTerminalEvent(disk.events)
    case Some(completion) =>
      completion.knownSchema && completion.binding == disk.binding && LeftByStop(disk, ImpliedPhase(completion))
  }

  ghost predicate Settled(disk: Disk) {
    && disk.completion.Some? && Recoverable(disk)
    && EndsWith(disk.events, ImpliedPhase(disk.completion.value))
  }

  /** The write may be performed on this record: only a record without a terminal event
      takes anything but its own terminal phase again, a terminal phase or event is that
      of the published completion, and no other completion is published over one. */
  ghost predicate Orderly(disk: Disk, write: Write) {
    match write
    case WritePhase(phase) =>
      if Terminal(phase) then disk.completion.Some? && phase == ImpliedPhase(disk.completion.value)
      else NoTerminalEvent(disk.events)
    case AppendEvent(phase, _) =>
      && NoTerminalEvent(disk.events)
      && (Terminal(phase) ==> disk.completion.Some? && phase == disk.phase == ImpliedPhase(disk.completion.value))
    case PublishCompletion(completion) =>
      if disk.completion.Some? then completion == disk.completion.value
      else completion.knownSchema && completion.binding == disk.binding
  }

  /** The record is still recoverable and a published completion is still the same. */
  ghost predicate Kept(disk: Disk, after: Disk) {
    Recoverable(after) && (disk.completion.Some? ==> after.completion == disk.completion)
  }

  lemma AppendKeepsRecordExactly(disk: Disk, phase: Phase, report: Report)
    requires Recoverable(disk)
    ensures Kept(disk, Perform(disk, AppendEvent(phase, report))) <==> Orderly(disk, AppendEvent(phase, report))
  {
    var after := Perform(disk, AppendEvent(phase, report));
    assert after.events[..|after.events| - 1] == disk.events;
    assert Last(after.events).phase == phase;
    assert NoTerminalEvent(after.events) <==> NoTerminalEvent(disk.events) && !Terminal(phase) by {
      assert forall i :: 0 <= i < |disk.events| ==> after.events[i] == disk.events[i];
    }
  }

  /** One durable write keeps the record if and only if it is orderly. */
  lemma WriteKeepsRecordExactly(disk: Disk, write: Write)
    requires Recoverable(disk)
    ensures Kept(disk, Perform(disk, write)) <==> Orderly(disk, write)
  {
    if write.AppendEvent? {
      AppendKeepsRecordExactly(disk, write.phase, write.report);
    } else if write.WritePhase? && disk.completion.Some? && !NoTerminalEvent(disk.events) {
      assert EndsWith(disk.events, ImpliedPhase(disk.completion.value));
    }
  }

  ghost predicate AllOrderly(disk: Disk, writes: seq<Write>)
    decreases |writes|
  {
    writes != [] ==> Orderly(disk, writes[0]) && AllOrderly(Perform(disk, writes[0]), writes[1..])
  }

  lemma {:induction false} OrderlyWritesKeepRecord(disk: Disk, writes: seq<Write>)
    requires Recoverable(disk) && AllOrderly(disk, writes)
    ensures Kept(disk, PerformAll(disk, writes))
    decreases |writes|
  {
    if writes != [] {
      WriteKeepsRecordExactly(disk, writes[0]);
      OrderlyWritesKeepRecord(Perform(disk, writes[0]), writes[1..]);
    }
  }

  lemma {:induction false} OrderlyPrefix(disk: Disk, writes: seq<Write>, power: nat)
    requires AllOrderly(disk, writes) && power <= |writes|
    ensures AllOrderly(disk, writes[..power])
    decreases power
  {
    if power > 0 {
      OrderlyPrefix(Perform(disk, writes[0]), writes[1..], power - 1);
      assert writes[..power][1..] == writes[1..][..power - 1];
    }
  }

  lemma {:induction false} OrderlyConcat(disk: Disk, a: seq<Write>, b: seq<Write>)
    requires AllOrderly(disk, a) && AllOrderly(PerformAll(disk, a), b)
    ensures AllOrderly(disk, a + b)
    decreases |a|
  {
    if a == [] {
      assert a + b == b;
    } else {
      assert (a + b)[1..] == a[1..] + b;
      OrderlyConcat(Perform(disk, a[0]), a[1..], b);
    }
  }

  lemma PhaseUpdatePerformed(disk: Disk, phase: Phase, report: Report)
    ensures PerformAll(disk, PhaseUpdate(phase, report)) ==
            disk.(phase := phase, events := disk.events + [Event(|disk.events| + 1, phase, report)])
  {
    PhaseUpdateInterrupted(disk, phase, report, 2);
  }

  /** The writes took no terminal event and touched neither completion nor binding. */
  ghost predicate StillOpen(disk: Disk, after: Disk) {
    && NoTerminalEvent(after.events) && disk.events <= after.events
    && after.completion == disk.completion && after.binding == disk.binding
  }

  lemma OpenUpdateOrderly(disk: Disk, phase: OpenPhase, report: Report)
    requires NoTerminalEvent(disk.events)
    ensures AllOrderly(disk, PhaseUpdate(phase, report))
    ensures StillOpen(disk, PerformAll(disk, PhaseUpdate(phase, report)))
  {
    PhaseUpdatePerformed(disk, phase, report);
    var writes := PhaseUpdate(phase, report);
    assert writes[1..] == [AppendEvent(phase, report)];
    assert AllOrderly(disk.(phase := phase), [AppendEvent(phase, report)]);
  }

  lemma TerminalUpdateOrderly(disk: Disk, report: Report)
    requires disk.completion.Some? && NoTerminalEvent(disk.events)
    ensures AllOrderly(disk, PhaseUpdate(ImpliedPhase(disk.completion.value), report))
  {
    var phase := ImpliedPhase(disk.completion.value);
    assert PhaseUpdate(phase, report)[1..] == [AppendEvent(phase, report)];
    assert AllOrderly(disk.(phase := phase), [AppendEvent(phase, report)]);
  }

  /** One more nonterminal update after such writes. */
  lemma UpdatesOrderly(disk: Disk, first: seq<Write>, phase: OpenPhase, report: Report)
    requires AllOrderly(disk, first) && StillOpen(disk, PerformAll(disk, first))
    ensures AllOrderly(disk, first + PhaseUpdate(phase, report))
    ensures StillOpen(disk, PerformAll(disk, first + PhaseUpdate(phase, report)))
  {
    OpenUpdateOrderly(PerformAll(disk, first), phase, report);
    OrderlyConcat(disk, first, PhaseUpdate(phase, report));
    PerformConcat(disk, first, PhaseUpdate(phase, report));
  }

  lemma BeforeCompletionOrderly(disk: Disk, phase: Phase, closing: Closing)
    requires NoTerminalEvent(disk.events)
    ensures AllOrderly(disk, BeforeCompletion(phase, closing))
    ensures StillOpen(disk, PerformAll(disk, BeforeCompletion(phase, closing)))
  {
    var changed := ChangeNoted(phase, closing);
    if changed != [] {
      OpenUpdateOrderly(disk, WorkspaceChanged, WorkspaceDiffers);
    }
    UpdatesOrderly(disk, changed, ValidationStarted, CheckingEvidence);
    UpdatesOrderly(disk, changed + PhaseUpdate(ValidationStarted, CheckingEvidence), ValidationCompleted, ValidationObserved);
  }

  /** There is no completion, or it is the very one about to be published. */
  ghost predicate Publishes(disk: Disk, closing: Closing) {
    disk.completion.Some? ==> disk.completion.value == ClosingCompletion(disk.binding, closing)
  }

  /** Completing a record that has no terminal event; `phase` is the one the completing
      process remembers. */
  lemma CompletionOrderly(disk: Disk, phase: Phase, closing: Closing)
    requires Recoverable(disk) && NoTerminalEvent(disk.events) && Publishes(disk, closing)
    ensures var writes := CompleteWrites(disk.(phase := phase), closing);
            && AllOrderly(disk, writes) && Settled(PerformAll(disk, writes))
            && PerformAll(disk, writes).completion == Some(ClosingCompletion(disk.binding, closing))
  {
    var before := BeforeCompletion(phase, closing);
    var completion := ClosingCompletion(disk.binding, closing);
    var publish := [PublishCompletion(completion)];
    var finish := PhaseUpdate(ImpliedPhase(completion), Ended);
    BeforeCompletionOrderly(disk, phase, closing);
    OrderlyWritesKeepRecord(disk, before);
    var d1 := PerformAll(disk, before);
    var d2 := Perform(d1, publish[0]);
    assert publish[1..] == [] && AllOrderly(d1, publish);
    assert PerformAll(d1, publish) == d2;
    TerminalUpdateOrderly(d2, Ended);
    OrderlyConcat(disk, before, publish);
    PerformConcat(disk, before, publish);
    OrderlyConcat(disk, before + publish, finish);
    PerformConcat(disk, before + publish, finish);
    OrderlyWritesKeepRecord(disk, before + publish + finish);
    PhaseUpdatePerformed(d2, ImpliedPhase(completion), Ended);
    AppendingCloses(d2.events, ImpliedPhase(completion), Ended);
  }

  lemma FinalizeOrderly(disk: Disk, evidence: Evidence, workspaceChanged: bool)
    requires Recoverable(disk) && FinalizeWrites(disk, evidence, workspaceChanged).Ok?
    ensures AllOrderly(disk, FinalizeWrites(disk, evidence, workspaceChanged).value)
    ensures Settled(PerformAll(disk, FinalizeWrites(disk, evidence, workspaceChanged).value))
  {
    match disk.completion
    case None =>
      var (accepted, passed) := if evidence.Some? then evidence.value else (false, false);
      assert disk.(phase := disk.phase) == disk;
      CompletionOrderly(disk, disk.phase, Closing(false, accepted, passed, workspaceChanged));
    case Some(completion) =>
      var phase := ImpliedPhase(completion);
      TerminalScanIsExact(disk.events, phase);
      if NoTerminalEvent(disk.events) {
        TerminalUpdateOrderly(disk, Recovered(phase));
        PhaseUpdatePerformed(disk, phase, Recovered(phase));
        AppendingCloses(disk.events, phase, Recovered(phase));
      } else {
        assert PerformAll(disk, []) == disk;
      }
  }

  // ---- Runs ---------------------------------------------------------------

  /** What may happen to the record, in any order: a runner reports progress, sends
      heartbeats and completes; recovery finalizes. Nothing here looks at the record
      first, as nothing in the source does before it updates the phase or completes. */
  datatype Action =
    | Progress(phase: OpenPhase, report: Report)
    | Heartbeat(report: Report)
    | Complete(closing: Closing)
    | Finalize(evidence: Evidence, workspaceChanged: bool)

  function ActionWrites(disk: Disk, action: Action): Result<seq<Write>, Refusal> {
    match action
    case Progress(phase, report) => Ok(PhaseUpdate(phase, report))
    case Heartbeat(report) => Ok([AppendEvent(HarnessRunning, report)])
    case Complete(closing) => Ok(CompleteWrites(disk, closing))
    case Finalize(evidence, workspaceChanged) => FinalizeWrites(disk, evidence, workspaceChanged)
  }

  function Act(disk: Disk, action: Action, power: nat): Disk {
    match ActionWrites(disk, action)
    case Err(_) => disk
    case Ok(writes) => Interrupted(disk, writes, power)
  }

  function Run(disk: Disk, actions: seq<(Action, nat)>): Disk
    decreases |actions|
  {
    if actions == [] then disk else Run(Act(disk, actions[0].0, actions[0].1), actions[1..])
  }

  /** What a runner would have to read before it acts: no terminal event before it writes
      anything, and before it publishes, no other completion. Recovery needs nothing. */
  ghost predicate Safe(disk: Disk, action: Action, power: nat) {
    && (!action.Finalize? && power > 0 ==> NoTerminalEvent(disk.events))
    && (action.Complete? && power > |BeforeCompletion(disk.phase, action.closing)| ==> Publishes(disk, action.closing))
  }

  ghost predicate AllSafe(disk: Disk, actions: seq<(Action, nat)>)
    decreases |actions|
  {
    actions != [] ==>
      Safe(disk, actions[0].0, actions[0].1) && AllSafe(Act(disk, actions[0].0, actions[0].1), actions[1..])
  }

  /** After every action of the run the record is kept. */
  ghost predicate KeptAlong(disk: Disk, actions: seq<(Action, nat)>)
    decreases |actions|
  {
    actions != [] ==>
      Kept(disk, Act(disk, actions[0].0, actions[0].1)) && KeptAlong(Act(disk, actions[0].0, actions[0].1), actions[1..])
  }

  /** Nothing may follow a terminal event. */
  lemma AppendedPastTheEnd(before: seq<Event>, disk: Disk)
    requires before < disk.events && !NoTerminalEvent(before)
    ensures !Recoverable(disk)
  {
    var i :| 0 <= i < |before| && Terminal(before[i].phase);
    var front := disk.events[..|disk.events| - 1];
    assert disk.events[i] == before[i] && front[i] == before[i];
  }

  lemma {:induction false} EventsGrow(disk: Disk, writes: seq<Write>)
    ensures disk.events <= PerformAll(disk, writes).events
    decreases |writes|
  {
    if writes != [] {
      EventsGrow(Perform(disk, writes[0]), writes[1..]);
    }
  }

  /** A write list that begins with a nonterminal phase update breaks a settled record
      wherever it stops after its first write. */
  lemma UpdateBreaksSettled(disk: Disk, phase: OpenPhase, report: Report, rest: seq<Write>, power: nat)
    requires !NoTerminalEvent(disk.events) && power > 0
    ensures !Recoverable(Interrupted(disk, PhaseUpdate(phase, report) + rest, power))
  {
    var update := PhaseUpdate(phase, report);
    InterruptedConcat(disk, update, rest, power);
    PhaseUpdateInterrupted(disk, phase, report, power);
    if power >= 2 {
      PhaseUpdatePerformed(disk, phase, report);
      var d := PerformAll(disk, update);
      EventsGrow(d, if power - 2 < |rest| then rest[..power - 2] else rest);
      AppendedPastTheEnd(disk.events, Interrupted(d, rest, power - 2));
    }
  }

  lemma RunnerBreaksSettled(disk: Disk, action: Action, power: nat)
    requires !action.Finalize? && power > 0 && !NoTerminalEvent(disk.events)
    ensures !Recoverable(Act(disk, action, power))
  {
    match action
    case Progress(phase, report) =>
      assert PhaseUpdate(phase, report) + [] == PhaseUpdate(phase, report);
      UpdateBreaksSettled(disk, phase, report, [], power);
    case Heartbeat(report) =>
      assert PerformAll(disk, [AppendEvent(HarnessRunning, report)])
          == PerformAll(Perform(disk, AppendEvent(HarnessRunning, report)), []);
      AppendedPastTheEnd(disk.events, Act(disk, action, power));
    case Complete(closing) =>
      var completion := ClosingCompletion(disk.binding, closing);
      var checking := PhaseUpdate(ValidationStarted, CheckingEvidence);
      var rest := PhaseUpdate(ValidationCompleted, ValidationObserved) + [PublishCompletion(completion)]
                  + PhaseUpdate(ImpliedPhase(completion), Ended);
      if ChangeNoted(disk.phase, closing) == [] {
        assert CompleteWrites(disk, closing) == checking + rest;
        UpdateBreaksSettled(disk, ValidationStarted, CheckingEvidence, rest, power);
      } else {
        assert CompleteWrites(disk, closing) == PhaseUpdate(WorkspaceChanged, WorkspaceDiffers) + (checking + rest);
        UpdateBreaksSettled(disk, WorkspaceChanged, WorkspaceDiffers, checking + rest, power);
      }
  }

  /** Getting past the publication leaves the closing's completion behind. */
  lemma PublicationReplaces(disk: Disk, closing: Closing, power: nat)
    requires power > |BeforeCompletion(disk.phase, closing)|
    ensures Act(disk, Complete(closing), power).completion == Some(ClosingCompletion(disk.binding, closing))
  {
    var before := BeforeCompletion(disk.phase, closing);
    var completion := ClosingCompletion(disk.binding, closing);
    var finish := PhaseUpdate(ImpliedPhase(completion), Ended);
    var d := Perform(PerformAll(disk, before), PublishCompletion(completion));
    assert CompleteWrites(disk, closing) == (before + [PublishCompletion(completion)]) + finish;
    InterruptedConcat(disk, before + [PublishCompletion(completion)], finish, power);
    PerformConcat(disk, before, [PublishCompletion(completion)]);
    assert PerformAll(PerformAll(disk, before), [PublishCompletion(completion)]) == PerformAll(d, []);
    PhaseUpdateInterrupted(d, ImpliedPhase(completion), Ended, power - |before| - 1);
  }

  lemma SafeWritesOrderly(disk: Disk, action: Action, power: nat)
    requires Recoverable(disk) && Safe(disk, action, power) && power > 0 && ActionWrites(disk, action).Ok?
    ensures var writes := ActionWrites(disk, action).value;
            AllOrderly(disk, if power < |writes| then writes[..power] else writes)
  {
    var writes := ActionWrites(disk, action).value;
    match action
    case Progress(phase, report) =>
      OpenUpdateOrderly(disk, phase, report);
      OrderlyPrefix(disk, writes, if power < |writes| then power else |writes|);
    case Heartbeat(report) =>
    case Finalize(evidence, workspaceChanged) =>
      FinalizeOrderly(disk, evidence, workspaceChanged);
      OrderlyPrefix(disk, writes, if power < |writes| then power else |writes|);
    case Complete(closing) =>
      CompletingOrderly(disk, closing, power);
  }

  lemma CompletingOrderly(disk: Disk, closing: Closing, power: nat)
    requires Recoverable(disk) && Safe(disk, Complete(closing), power) && power > 0
    ensures var writes := CompleteWrites(disk, closing);
            AllOrderly(disk, if power < |writes| then writes[..power] else writes)
  {
    var writes := CompleteWrites(disk, closing);
    var before := BeforeCompletion(disk.phase, closing);
    if power <= |before| {
      BeforeCompletionOrderly(disk, disk.phase, closing);
      OrderlyPrefix(disk, before, power);
      assert writes[..power] == before[..power];
    } else {
      assert disk.(phase := disk.phase) == disk;
      CompletionOrderly(disk, disk.phase, closing);
      OrderlyPrefix(disk, writes, if power < |writes| then power else |writes|);
    }
  }

  lemma ActionKeepsRecordExactly(disk: Disk, action: Action, power: nat)
    requires Recoverable(disk)
    ensures Kept(disk, Act(disk, action, power)) <==> Safe(disk, action, power)
  {
    if !Safe(disk, action, power) {
      if NoTerminalEvent(disk.events) {
        PublicationReplaces(disk, action.closing, power);
      } else {
        RunnerBreaksSettled(disk, action, power);
      }
    } else if power > 0 && ActionWrites(disk, action).Ok? {
      var writes := ActionWrites(disk, action).value;
      SafeWritesOrderly(disk, action, power);
      OrderlyWritesKeepRecord(disk, if power < |writes| then writes[..power] else writes);
    } else {
      assert PerformAll(disk, []) == disk;
    }
  }

  /** On every run, stopped anywhere and as often as one likes: a published completion is
      never replaced and the record stays one whose only possible terminal event is last
      and belongs to the completion and the phase, if and only if no runner writes after
      a terminal event or publishes over another completion. */
  lemma {:induction false} RunsKeepRecordExactly(disk: Disk, actions: seq<(Action, nat)>)
    requires Recoverable(disk)
    ensures KeptAlong(disk, actions) <==> AllSafe(disk, actions)
    ensures KeptAlong(disk, actions) ==> Kept(disk, Run(disk, actions)) && |TerminalEvents(Run(disk, actions).events)| <= 1
    decreases |actions|
  {
    if actions == [] {
      AtMostOneTerminalEvent(disk);
    } else {
      ActionKeepsRecordExactly(disk, actions[0].0, actions[0].1);
      if Kept(disk, Act(disk, actions[0].0, actions[0].1)) {
        RunsKeepRecordExactly(Act(disk, actions[0].0, actions[0].1), actions[1..]);
      }
    }
  }

  lemma AtMostOneTerminalEvent(disk: Disk)
    requires Recoverable(disk)
    ensures |TerminalEvents(disk.events)| == if Settled(disk) then 1 else 0
  {
    TerminalEventsOfJournal(disk.events);
    if Settled(disk) {
      var front, last := disk.events[..|disk.events| - 1], Last(disk.events);
      assert disk.events == front + [last];
      TerminalEventsConcat(front, [last]);
      TerminalEventsOfJournal(front);
    }
  }

  /** One uninterrupted finalization settles the record, unless it is refused for lack of
      evidence of an acceptance the completion claims; a settled record never moves. */
  lemma FinalizationSettles(disk: Disk, evidence: Evidence, workspaceChanged: bool, power: nat)
    requires Recoverable(disk)
    ensures FinalizeWrites(disk, evidence, workspaceChanged).Ok? <==>
            (disk.completion.Some? && disk.completion.value.landed ==> Landed(evidence))
    ensures var writes := FinalizeWrites(disk, evidence, workspaceChanged);
            writes.Ok? && power >= |writes.value| ==> Settled(Act(disk, Finalize(evidence, workspaceChanged), power))
    ensures Settled(disk) ==> Act(disk, Finalize(evidence, workspaceChanged), power) == disk
  {
    if disk.completion.Some? {
      var completion := disk.completion.value;
      ReconcileAcceptsExactly(disk, completion, completion.landed ==> Landed(evidence));
      if Settled(disk) {
        TerminalScanIsExact(disk.events, ImpliedPhase(completion));
        assert PerformAll(disk, []) == disk;
      }
    }
    if FinalizeWrites(disk, evidence, workspaceChanged).Ok? {
      FinalizeOrderly(disk, evidence, workspaceChanged);
    }
  }

  // ---- Which outcome ------------------------------------------------------

  /** The record says everywhere the same: the completion, the phase, and the journal's
      last event, which is its only terminal one. */
  ghost predicate Shows(disk: Disk, completion: Completion, phase: Phase) {
    disk.completion == Some(completion) && disk.phase == phase && EndsWith(disk.events, phase)
  }

  /** What the end of a run is recorded as: it landed exactly if the Version was accepted
      and verified, whatever the harness did; a harness that was stopped by hand leaves a
      cancelled execution unless it landed; any other run failed. */
  lemma CompletionOutcome(disk: Disk, closing: Closing)
    requires Recoverable(disk) && disk.completion.None?
    ensures var after := PerformAll(disk, CompleteWrites(disk, closing));
            && after.completion.Some?
            && (after.completion.value.landed <==> closing.accepted && closing.validationPassed)
            && (after.completion.value.cancelled <==> closing.cancelled)
            && after.completion.value.knownSchema && after.completion.value.binding == disk.binding
            && Shows(after, after.completion.value,
                     if closing.accepted && closing.validationPassed then ExecutionCompleted
                     else if closing.cancelled then ExecutionCancelled
                     else ExecutionFailed)
  {
    assert disk.(phase := disk.phase) == disk;
    CompletionOrderly(disk, disk.phase, closing);
  }

  function Phases(events: seq<Event>): seq<Phase> {
    seq(|events|, i requires 0 <= i < |events| => events[i].phase)
  }

  lemma UpdatePhases(disk: Disk, phase: Phase, report: Report)
    ensures var after := PerformAll(disk, PhaseUpdate(phase, report));
            Phases(after.events) == Phases(disk.events) + [phase] && after.phase == phase
  {
    PhaseUpdatePerformed(disk, phase, report);
  }

  function ChangePhases(phase: Phase, closing: Closing): seq<Phase> {
    if closing.workspaceChanged && phase != WorkspaceChanged then [WorkspaceChanged] else []
  }

  lemma ValidationJournal(disk: Disk, closing: Closing)
    ensures Phases(PerformAll(disk, BeforeCompletion(disk.phase, closing)).events) ==
            Phases(disk.events) + ChangePhases(disk.phase, closing) + [ValidationStarted, ValidationCompleted]
  {
    var changed := ChangeNoted(disk.phase, closing);
    var started, validated := PhaseUpdate(ValidationStarted, CheckingEvidence), PhaseUpdate(ValidationCompleted, ValidationObserved);
    var d1 := PerformAll(disk, changed);
    var d2 := PerformAll(d1, started);
    PerformConcat(disk, changed, started);
    PerformConcat(disk, changed + started, validated);
    if changed != [] {
      UpdatePhases(disk, WorkspaceChanged, WorkspaceDiffers);
    }
    UpdatePhases(d1, ValidationStarted, CheckingEvidence);
    UpdatePhases(d2, ValidationCompleted, ValidationObserved);
  }

  /** What a completion adds to the journal: a change not yet noted, the two steps of the
      validation, the outcome; nothing else, and in this order. */
  lemma CompletionJournal(disk: Disk, closing: Closing)
    ensures var after := PerformAll(disk, CompleteWrites(disk, closing));
            Phases(after.events) == Phases(disk.events) + ChangePhases(disk.phase, closing)
                                    + [ValidationStarted, ValidationCompleted, after.phase]
  {
    var completion := ClosingCompletion(disk.binding, closing);
    var before := BeforeCompletion(disk.phase, closing);
    var publish, finish := [PublishCompletion(completion)], PhaseUpdate(ImpliedPhase(completion), Ended);
    var d := PerformAll(disk, before);
    ValidationJournal(disk, closing);
    PerformConcat(disk, before, publish);
    PerformConcat(disk, before + publish, finish);
    assert PerformAll(d, publish) == PerformAll(Perform(d, publish[0]), []);
    UpdatePhases(Perform(d, publish[0]), ImpliedPhase(completion), Ended);
  }

  /** The most writes a finalization takes. */
  const EnoughPower: nat := 9

  /** Finalizing an execution that has no completion: it lands exactly if its Version was
      accepted and verified before the runner died, it fails otherwise, and it is never
      taken for a cancelled one. */
  lemma FinalizationOutcome(disk: Disk, evidence: Evidence, workspaceChanged: bool, power: nat)
    requires Recoverable(disk) && disk.completion.None? && power >= EnoughPower
    ensures var after := Act(disk, Finalize(evidence, workspaceChanged), power);
            && after.completion.Some? && !after.completion.value.cancelled
            && (after.completion.value.landed <==> evidence == Some((true, true)))
            && Shows(after, after.completion.value,
                     if evidence == Some((true, true)) then ExecutionCompleted else ExecutionFailed)
  {
    var (accepted, passed) := if evidence.Some? then evidence.value else (false, false);
    CompletionOutcome(disk, Closing(false, accepted, passed, workspaceChanged));
  }

  /** Finalizing one that has its completion: the completion stays and the record shows its
      outcome, unless the completion claims an acceptance that cannot be verified. */
  lemma ReconciliationOutcome(disk: Disk, evidence: Evidence, workspaceChanged: bool, power: nat)
    requires Recoverable(disk) && disk.completion.Some? && power >= EnoughPower
    ensures var completion, after := disk.completion.value, Act(disk, Finalize(evidence, workspaceChanged), power);
            if completion.landed && evidence != Some((true, true)) then after == disk
            else Shows(after, completion,
                       if completion.landed then ExecutionCompleted
                       else if completion.cancelled then ExecutionCancelled
                       else ExecutionFailed)
  {
    var completion := disk.completion.value;
    FinalizationSettles(disk, evidence, workspaceChanged, power);
    ActionKeepsRecordExactly(disk, Finalize(evidence, workspaceChanged), power);
    if FinalizeWrites(disk, evidence, workspaceChanged).Ok? {
      ReconcileWritesShape(disk, completion, completion.landed ==> Landed(evidence));
    }
  }

  /** Starting a settled execution again is for good: its phase is overwritten, and every
      later finalization is refused. */
  lemma RestartedIsNeverReconciled(disk: Disk, phase: OpenPhase, evidence: Evidence, workspaceChanged: bool)
    requires Settled(disk)
    ensures FinalizeWrites(disk.(phase := phase), evidence, workspaceChanged).Err?
  {
    var completion := disk.completion.value;
    ReconcileAcceptsExactly(disk.(phase := phase), completion, completion.landed ==> Landed(evidence));
  }
}
