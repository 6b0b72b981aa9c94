/** One execution's durable record: the phase file, the event journal and the
    completion. Every operation is a list of durable writes; `power` is the number of
    writes the machine still performs before it stops, so each prefix of each list is
    a possible crash. */
module ExecutionRecord {
  import opened Wrappers
  import opened ExecutionPhases

  /** What an event tells, named rather than spelt out. */
  datatype Report =
    | Told(text: string)
    | WorkspaceDiffers
    | CheckingEvidence
    | ValidationObserved
    | Ended
    | Recovered(outcome: Phase)

  datatype Event = Event(sequence: nat, phase: Phase, report: Report)

  /** What a completion must repeat from the durable preparation. */
  datatype Binding = Binding(
    executionId: string, shotId: nat, versionOrdinal: nat, mode: string,
    harness: string, model: string, route: string,
    intentionDigest: nat, referenceDigests: seq<nat>)

  datatype Completion = Completion(knownSchema: bool, binding: Binding, landed: bool, cancelled: bool)

  datatype Disk = Disk(binding: Binding, phase: Phase, events: seq<Event>, completion: Option<Completion>)

  datatype Write =
    | WritePhase(phase: Phase)
    | AppendEvent(phase: Phase, report: Report)
    | PublishCompletion(completion: Completion)

  datatype Refusal =
    | CompletionMismatch
    | UnverifiedAcceptance
    | EvidenceUnavailable
    | ContradictoryPhase
    | EventPrecedesPhase
    | DuplicateTerminalEvents
    | ConflictingTerminalEvent
    | EventNotPublished
    | BrokenSequence

  datatype Outcome = Finished | Refused(refusal: Refusal) | Stopped

  // ---- Durable writes -----------------------------------------------------

  function Perform(disk: Disk, write: Write): Disk {
    match write
    case WritePhase(phase) => disk.(phase := phase)
    case AppendEvent(phase, report) =>
      disk.(events := disk.events + [Event(|disk.events| + 1, phase, report)])
    case PublishCompletion(completion) => disk.(completion := Some(completion))
  }

  function PerformAll(disk: Disk, writes: seq<Write>): Disk
    decreases |writes|
  {
    if writes == [] then disk else PerformAll(Perform(disk, writes[0]), writes[1..])
  }

  /** The disk after a stop that let only `power` of the writes through. */
  function Interrupted(disk: Disk, writes: seq<Write>, power: nat): Disk {
    PerformAll(disk, if power < |writes| then writes[..power] else writes)
  }

  function PhaseUpdate(phase: Phase, report: Report): seq<Write> {
    [WritePhase(phase), AppendEvent(phase, report)]
  }

  // ---- Reading the event journal -----------------------------------------

  function TerminalEvents(events: seq<Event>): seq<Event> {
    if events == [] then []
    else (if Terminal(events[0].phase) then [events[0]] else []) + TerminalEvents(events[1..])
  }

  function TerminalEventPresent(events: seq<Event>, expected: Phase): Result<bool, Refusal> {
    var terminal := TerminalEvents(events);
    if !Contiguous(events) then Err(BrokenSequence)
    else if |terminal| > 1 then Err(DuplicateTerminalEvents)
    else if |terminal| == 0 then Ok(false)
    else if terminal[0].phase != expected || Last(events).sequence != terminal[0].sequence then
      Err(ConflictingTerminalEvent)
    else Ok(true)
  }

  function Last(events: seq<Event>): Event {
    if events == [] then Event(0, Prepared, Ended) else events[|events| - 1]
  }

  /** Sequence numbers are contiguous from one, as the engine's reader demands. */
  predicate Contiguous(events: seq<Event>) {
    forall i :: 0 <= i < |events| ==> events[i].sequence == i + 1
  }

  ghost predicate NoTerminalEvent(events: seq<Event>) {
    forall i :: 0 <= i < |events| ==> !Terminal(events[i].phase)
  }

  /** The journal ends with its one terminal event. */
  ghost predicate EndsWith(events: seq<Event>, phase: Phase) {
    && |events| > 0
    && NoTerminalEvent(events[..|events| - 1])
    && Last(events).phase == phase
    && Terminal(phase)
  }

  // ---- Reconciling a published completion ---------------------------------

  function ImpliedPhase(completion: Completion): (phase: Phase)
    ensures Terminal(phase)
  {
    if completion.landed then ExecutionCompleted
    else if completion.cancelled then ExecutionCancelled
    else ExecutionFailed
  }

  /** The writes `reconcile_published_completion` decides on, or its refusal. */
  function ReconcileWrites(disk: Disk, completion: Completion, evidence: bool): Result<seq<Write>, Refusal> {
    var phase := ImpliedPhase(completion);
    if !completion.knownSchema || completion.binding != disk.binding then Err(CompletionMismatch)
    else if completion.landed && !evidence then Err(UnverifiedAcceptance)
    else if Terminal(disk.phase) && disk.phase != phase then Err(ContradictoryPhase)
    else
      match TerminalEventPresent(disk.events, phase)
      case Err(refusal) => Err(refusal)
      case Ok(present) =>
        if !Terminal(disk.phase) && present then Err(EventPrecedesPhase)
        else Ok(if present then [] else PhaseUpdate(phase, Recovered(phase)))
  }

  ghost predicate Trustworthy(disk: Disk, completion: Completion, evidence: bool) {
    completion.knownSchema && completion.binding == disk.binding && (completion.landed ==> evidence)
  }

  /** Nothing terminal is in the journal yet, or exactly the terminal event of the phase. */
  ghost predicate LeftByStop(disk: Disk, phase: Phase) {
    && Contiguous(disk.events)
    && (|| (NoTerminalEvent(disk.events) && (!Terminal(disk.phase) || disk.phase == phase))
        || (EndsWith(disk.events, phase) && disk.phase == phase))
  }

  lemma {:induction false} TerminalEventsOfJournal(events: seq<Event>)
    ensures |TerminalEvents(events)| == 0 <==> NoTerminalEvent(events)
    ensures forall e :: e in TerminalEvents(events) ==> e in events && Terminal(e.phase)
    ensures |TerminalEvents(events)| <= |events|
  {
    if events != [] {
      TerminalEventsOfJournal(events[1..]);
      assert forall i :: 0 < i < |events| ==> events[i] == events[1..][i - 1];
      assert forall i :: 0 <= i < |events[1..]| ==> events[1..][i] == events[i + 1];
    }
  }

  lemma {:induction false} TerminalEventsConcat(a: seq<Event>, b: seq<Event>)
    ensures TerminalEvents(a + b) == TerminalEvents(a) + TerminalEvents(b)
  {
    if a == [] {
      assert a + b == b;
    } else {
      var whole := a + b;
      var one := if Terminal(a[0].phase) then [a[0]] else [];
      TerminalEventsConcat(a[1..], b);
      assert whole[0] == a[0] && whole[1..] == a[1..] + b;
      assert one + (TerminalEvents(a[1..]) + TerminalEvents(b)) == one + TerminalEvents(a[1..]) + TerminalEvents(b);
    }
  }

  lemma TerminalEventsSplit(events: seq<Event>)
    requires events != []
    ensures var front, last := events[..|events| - 1], Last(events);
            TerminalEvents(events) == TerminalEvents(front) + if Terminal(last.phase) then [last] else []
  {
    var front, last := events[..|events| - 1], Last(events);
    assert events == front + [last];
    TerminalEventsConcat(front, [last]);
    assert [last][1..] == [];
  }

  /** A single terminal event that is the last event has no other before it. */
  lemma LastOfContiguous(events: seq<Event>, e: Event)
    requires Contiguous(events) && events != [] && e in events
    ensures e.sequence == Last(events).sequence ==> e == Last(events)
    ensures e in events[..|events| - 1] ==> e.sequence < Last(events).sequence
  {
  }

  /** The scan finds its event exactly when the journal ends with that one terminal
      event; it finds nothing exactly when there is none; anything else it refuses. */
  lemma TerminalScanIsExact(events: seq<Event>, expected: Phase)
    requires Terminal(expected)
    ensures TerminalEventPresent(events, expected) == Ok(true) <==> Contiguous(events) && EndsWith(events, expected)
    ensures TerminalEventPresent(events, expected) == Ok(false) <==> Contiguous(events) && NoTerminalEvent(events)
  {
    TerminalEventsOfJournal(events);
    if events != [] && Contiguous(events) {
      var front := events[..|events| - 1];
      TerminalEventsSplit(events);
      TerminalEventsOfJournal(front);
      if |TerminalEvents(events)| == 1 {
        LastOfContiguous(events, TerminalEvents(events)[0]);
      }
    }
  }

  /** Reconciliation goes through exactly for a trustworthy completion on a record that
      a stop inside one phase update could have left behind. */
  lemma ReconcileAcceptsExactly(disk: Disk, completion: Completion, evidence: bool)
    ensures ReconcileWrites(disk, completion, evidence).Ok? <==>
            Trustworthy(disk, completion, evidence) && LeftByStop(disk, ImpliedPhase(completion))
  {
    TerminalScanIsExact(disk.events, ImpliedPhase(completion));
  }

  /** There is nothing to write on a terminal phase with its event; otherwise it is one
      update to the terminal phase that the completion implies. */
  lemma ReconcileWritesShape(disk: Disk, completion: Completion, evidence: bool)
    requires ReconcileWrites(disk, completion, evidence).Ok?
    ensures var writes := ReconcileWrites(disk, completion, evidence).value;
            if writes == [] then disk.phase == ImpliedPhase(completion)
            else writes == PhaseUpdate(ImpliedPhase(completion), Recovered(ImpliedPhase(completion)))
                 && (Terminal(disk.phase) ==> disk.phase == ImpliedPhase(completion))
  {
  }

  // ---- Repeated, interrupted reconciliation -------------------------------

  function Attempt(disk: Disk, completion: Completion, evidence: bool, power: nat): Disk {
    match ReconcileWrites(disk, completion, evidence)
    case Err(_) => disk
    case Ok(writes) => Interrupted(disk, writes, power)
  }

  function Attempts(disk: Disk, completion: Completion, evidence: bool, powers: seq<nat>): Disk
    decreases |powers|
  {
    if powers == [] then disk
    else Attempts(Attempt(disk, completion, evidence, powers[0]), completion, evidence, powers[1..])
  }

  /** Some attempt in the schedule performed at least so many writes. */
  predicate SomeAttemptWrote(powers: seq<nat>, writes: nat) {
    powers != [] && (powers[0] >= writes || SomeAttemptWrote(powers[1..], writes))
  }

  lemma PhaseUpdateInterrupted(disk: Disk, phase: Phase, report: Report, power: nat)
    ensures Interrupted(disk, PhaseUpdate(phase, report), power) ==
            disk.(phase := if power >= 1 then phase else disk.phase,
                  events := if power >= 2 then disk.events + [Event(|disk.events| + 1, phase, report)] else disk.events)
  {
    var writes := PhaseUpdate(phase, report);
    assert writes[1..] == [AppendEvent(phase, report)];
    if power == 0 {
      assert writes[..0] == [];
    } else if power == 1 {
      assert writes[..1] == [WritePhase(phase)];
      assert PerformAll(disk, [WritePhase(phase)]) == PerformAll(disk.(phase := phase), []);
    } else {
      var written := disk.(phase := phase);
      assert PerformAll(disk, writes) == PerformAll(written, [AppendEvent(phase, report)]);
      assert PerformAll(written, [AppendEvent(phase, report)]) ==
             PerformAll(Perform(written, AppendEvent(phase, report)), []);
    }
  }

  lemma AttemptFromUnfinished(disk: Disk, completion: Completion, evidence: bool, power: nat)
    requires Contiguous(disk.events) && NoTerminalEvent(disk.events)
    requires !Terminal(disk.phase) || disk.phase == ImpliedPhase(completion)
    requires Trustworthy(disk, completion, evidence)
    ensures Attempt(disk, completion, evidence, power) ==
            disk.(phase := if power >= 1 then ImpliedPhase(completion) else disk.phase,
                  events := if power >= 2
                            then disk.events + [Event(|disk.events| + 1, ImpliedPhase(completion), Recovered(ImpliedPhase(completion)))]
                            else disk.events)
  {
    TerminalScanIsExact(disk.events, ImpliedPhase(completion));
    PhaseUpdateInterrupted(disk, ImpliedPhase(completion), Recovered(ImpliedPhase(completion)), power);
  }

  lemma SettledIsStable(disk: Disk, completion: Completion, evidence: bool, power: nat)
    requires Contiguous(disk.events) && EndsWith(disk.events, ImpliedPhase(completion))
    requires disk.phase == ImpliedPhase(completion) && Trustworthy(disk, completion, evidence)
    ensures Attempt(disk, completion, evidence, power) == disk
    ensures ReconcileWrites(disk, completion, evidence) == Ok([])
  {
    TerminalScanIsExact(disk.events, ImpliedPhase(completion));
    assert PerformAll(disk, []) == disk;
  }

  /** What a schedule of attempts must leave behind: the implied phase as soon as one
      attempt wrote anything, and one final terminal event exactly when one got through. */
  function RetriedDisk(disk: Disk, completion: Completion, powers: seq<nat>): Disk {
    var terminal := Event(|disk.events| + 1, ImpliedPhase(completion), Recovered(ImpliedPhase(completion)));
    disk.(phase := if SomeAttemptWrote(powers, 1) then ImpliedPhase(completion) else disk.phase,
          events := disk.events + if SomeAttemptWrote(powers, 2) then [terminal] else [])
  }

  lemma AppendingCloses(events: seq<Event>, phase: Phase, report: Report)
    requires Contiguous(events) && NoTerminalEvent(events) && Terminal(phase)
    ensures var closed := events + [Event(|events| + 1, phase, report)];
            Contiguous(closed) && EndsWith(closed, phase)
  {
    var closed := events + [Event(|events| + 1, phase, report)];
    assert closed[..|closed| - 1] == events;
  }

  lemma RetriedStep(disk: Disk, completion: Completion, powers: seq<nat>)
    requires powers != [] && powers[0] < 2
    ensures RetriedDisk(disk.(phase := if powers[0] >= 1 then ImpliedPhase(completion) else disk.phase), completion, powers[1..])
            == RetriedDisk(disk, completion, powers)
  {
    assert !SomeAttemptWrote([], 1);
  }

  /** From a record without a terminal event, every schedule of stops ends in exactly
      that record: earlier events unchanged, never a second terminal event. */
  lemma {:induction false} RetriesPublishOneTerminalEvent(
    disk: Disk, completion: Completion, evidence: bool, powers: seq<nat>)
    requires Contiguous(disk.events) && NoTerminalEvent(disk.events)
    requires !Terminal(disk.phase) || disk.phase == ImpliedPhase(completion)
    requires Trustworthy(disk, completion, evidence)
    ensures Attempts(disk, completion, evidence, powers) == RetriedDisk(disk, completion, powers)
    decreases |powers|
  {
    if powers == [] {
      assert disk.events + [] == disk.events;
    } else {
      var next := Attempt(disk, completion, evidence, powers[0]);
      AttemptFromUnfinished(disk, completion, evidence, powers[0]);
      if powers[0] >= 2 {
        AppendingCloses(disk.events, ImpliedPhase(completion), Recovered(ImpliedPhase(completion)));
        SettledForGood(next, completion, evidence, powers[1..]);
      } else {
        RetriesPublishOneTerminalEvent(next, completion, evidence, powers[1..]);
        RetriedStep(disk, completion, powers);
      }
    }
  }

  lemma {:induction false} SettledForGood(disk: Disk, completion: Completion, evidence: bool, powers: seq<nat>)
    requires Contiguous(disk.events) && EndsWith(disk.events, ImpliedPhase(completion))
    requires disk.phase == ImpliedPhase(completion) && Trustworthy(disk, completion, evidence)
    ensures Attempts(disk, completion, evidence, powers) == disk
    ensures ReconcileWrites(disk, completion, evidence).Ok?
    decreases |powers|
  {
    SettledIsStable(disk, completion, evidence, 0);
    if powers != [] {
      SettledIsStable(disk, completion, evidence, powers[0]);
      SettledForGood(disk, completion, evidence, powers[1..]);
    }
  }
}
