/** The execution directory as the source updates it: fields for its three files, and
    methods that perform their durable writes one at a time. */
module ExecutionStore {
  import opened Wrappers
  import opened ExecutionPhases
  import opened ExecutionRecord
  import opened ExecutionLifecycle

  class Store {
    const binding: Binding
    var phase: Phase
    var events: seq<Event>
    var completion: Option<Completion>

    function Contents(): Disk
      reads this
    {
      Disk(binding, phase, events, completion)
    }

    constructor (disk: Disk)
      ensures Contents() == disk
    {
      binding := disk.binding;
      phase := disk.phase;
      events := disk.events;
      completion := disk.completion;
    }

    /** `update_phase`: the record is written, then the event is appended. `left` is the
        remaining power, or nothing when the machine stopped on the way. */
    method UpdatePhase(next: Phase, report: Report, power: nat) returns (left: Option<nat>)
      modifies this
      ensures Contents() == Interrupted(old(Contents()), PhaseUpdate(next, report), power)
      ensures left == if power >= 2 then Some(power - 2) else None
    {
      PhaseUpdateInterrupted(Contents(), next, report, power);
      if power == 0 { return None; }
      phase := next;
      if power == 1 { return None; }
      events := events + [Event(|events| + 1, next, report)];
      return Some(power - 2);
    }

    /** `reconcile_published_completion`. The re-scan after the update never fails. */
    method ReconcilePublishedCompletion(published: Completion, evidence: bool, power: nat)
      returns (outcome: Outcome)
      modifies this
      ensures Contents() == Attempt(old(Contents()), published, evidence, power)
      ensures outcome == match ReconcileWrites(old(Contents()), published, evidence)
                         case Err(refusal) => Refused(refusal)
                         case Ok(writes) => if power >= |writes| then Finished else Stopped
    {
      if !published.knownSchema || published.binding != binding {
        return Refused(CompletionMismatch);
      }
      if published.landed && !evidence {
        return Refused(UnverifiedAcceptance);
      }
      var implied, report := ImpliedPhase(published), Recovered(ImpliedPhase(published));
      var currentIsTerminal := Terminal(phase);
      if currentIsTerminal && phase != implied {
        return Refused(ContradictoryPhase);
      }
      var scan := TerminalEventPresent(events, implied);
      if scan.Err? {
        return Refused(scan.error);
      }
      if !currentIsTerminal && scan.value {
        return Refused(EventPrecedesPhase);
      }
      ghost var before := Contents();
      assert PerformAll(before, []) == before;
      if !scan.value {
        TerminalScanIsExact(events, implied);
        PhaseUpdateInterrupted(before, implied, report, power);
        AppendingCloses(events, implied, report);
        var left := UpdatePhase(implied, report, power);
        if left.None? {
          return Stopped;
        }
        TerminalScanIsExact(events, implied);
        var rescan := TerminalEventPresent(events, implied);
        match rescan {
          case Err(refusal) => outcome := Refused(refusal);
          case Ok(present) => outcome := if present then Finished else Refused(EventNotPublished);
        }
      } else {
        outcome := Finished;
      }
    }

    /** What `complete_execution` records before it publishes anything. */
    method RecordValidation(closing: Closing, power: nat) returns (left: Option<nat>)
      modifies this
      ensures Contents() == Interrupted(old(Contents()), BeforeCompletion(old(phase), closing), power)
      ensures left == if power >= |BeforeCompletion(old(phase), closing)|
                      then Some(power - |BeforeCompletion(old(phase), closing)|) else None
    {
      ghost var start := Contents();
      ghost var changed := ChangeNoted(phase, closing);
      ghost var started := PhaseUpdate(ValidationStarted, CheckingEvidence);
      ghost var validated := PhaseUpdate(ValidationCompleted, ValidationObserved);
      InterruptedConcat(start, changed + started, validated, power);
      InterruptedConcat(start, changed, started, power);
      PerformConcat(start, changed, started);
      left := Some(power);
      if closing.workspaceChanged && phase != WorkspaceChanged {
        left := UpdatePhase(WorkspaceChanged, WorkspaceDiffers, power);
        if left.None? { return None; }
      }
      assert Contents() == PerformAll(start, changed);
      left := UpdatePhase(ValidationStarted, CheckingEvidence, left.value);
      if left.None? { return None; }
      left := UpdatePhase(ValidationCompleted, ValidationObserved, left.value);
    }

    /** `complete_execution`. */
    method CompleteExecution(closing: Closing, power: nat) returns (published: Option<Completion>)
      modifies this
      ensures Contents() == Interrupted(old(Contents()), CompleteWrites(old(Contents()), closing), power)
      ensures published == if power >= |CompleteWrites(old(Contents()), closing)|
                           then Some(ClosingCompletion(binding, closing)) else None
    {
      ghost var start := Contents();
      var record := ClosingCompletion(binding, closing);
      ghost var before := BeforeCompletion(phase, closing);
      ghost var publish := [PublishCompletion(record)];
      ghost var finish := PhaseUpdate(ImpliedPhase(record), Ended);
      assert CompleteWrites(start, closing) == before + publish + finish;
      InterruptedConcat(start, before + publish, finish, power);
      InterruptedConcat(start, before, publish, power);
      PerformConcat(start, before, publish);
      var left := RecordValidation(closing, power);
      if left.None? { return None; }
      assert Contents() == PerformAll(start, before);
      if left.value == 0 { return None; }
      assert publish[1..] == [];
      completion := Some(record);
      assert Contents() == PerformAll(start, before + publish);
      left := UpdatePhase(ImpliedPhase(record), Ended, left.value - 1);
      if left.None? { return None; }
      return Some(record);
    }

    /** `finalize_stalled_execution`. */
    method FinalizeStalled(evidence: Evidence, workspaceChanged: bool, power: nat) returns (outcome: Outcome)
      modifies this
      ensures Contents() == Act(old(Contents()), Finalize(evidence, workspaceChanged), power)
      ensures outcome == match FinalizeWrites(old(Contents()), evidence, workspaceChanged)
                         case Err(refusal) => Refused(refusal)
                         case Ok(writes) => if power >= |writes| then Finished else Stopped
    {
      if completion.Some? {
        var published := completion.value;
        if published.landed && evidence.None? {
          return Refused(EvidenceUnavailable);
        }
        outcome := ReconcilePublishedCompletion(published, published.landed ==> Landed(evidence), power);
        return;
      }
      if Terminal(phase) {
        assert PerformAll(Contents(), []) == Contents();
        return Finished;
      }
      var (accepted, passed) := if evidence.Some? then evidence.value else (false, false);
      var published := CompleteExecution(Closing(false, accepted, passed, workspaceChanged), power);
      return if published.Some? then Finished else Stopped;
    }
  }
}
