/** Execution phases and the two pure decisions taken on them: what recovery does
    with an execution whose runner is gone, and what a new runner does on arrival. */
module ExecutionPhases {

  datatype Phase =
    | Prepared
    | RunnerStarted
    | TerminalOpened
    | ExecutionStarted
    | ContextLoaded
    | Conception
    | Materializing
    | HarnessRunning
    | WorkspaceChanged
    | Building
    | Testing
    | Verifying
    | Repairing
    | Installing
    | Launching
    | ValidationStarted
    | WaitingForDevice
    | ValidationCompleted
    | ExecutionCompleted
    | ExecutionFailed
    | ExecutionCancelled

  predicate Terminal(phase: Phase) {
    phase.ExecutionCompleted? || phase.ExecutionFailed? || phase.ExecutionCancelled?
  }

  /** The phases an execution passes through before its outcome. */
  type OpenPhase = phase: Phase | !Terminal(phase) witness Prepared

  datatype Disposition = Start | ResumeDelivery | FinalizeAbandoned | Observe

  /** `runner_recovery_disposition`. */
  function RecoveryDisposition(phase: Phase, runnerAlive: bool): Disposition {
    if runnerAlive then Observe
    else match phase
      case Prepared | RunnerStarted => Start
      case WaitingForDevice => ResumeDelivery
      case ExecutionCompleted | ExecutionFailed | ExecutionCancelled => Observe
      case _ => FinalizeAbandoned
  }

  datatype Arrival = RefuseInFlight | RefuseFinal | ResumeWaiting | RunFresh

  predicate Refuses(arrival: Arrival) {
    arrival.RefuseInFlight? || arrival.RefuseFinal?
  }

  /** The phase checks `run_shot` makes on the record it loaded. */
  function RunnerArrival(phase: Phase): Arrival {
    match phase
    case ExecutionStarted | ContextLoaded | Conception | Materializing | HarnessRunning
      | WorkspaceChanged | Building | Testing | Verifying | Repairing | Installing
      | Launching | ValidationStarted => RefuseInFlight
    case ExecutionCompleted | ExecutionFailed | ExecutionCancelled => RefuseFinal
    case WaitingForDevice => ResumeWaiting
    case Prepared | RunnerStarted | TerminalOpened | ValidationCompleted => RunFresh
  }

  /** Recovery spawns a runner exactly where that runner would be let in, except for
      two phases that a hand-started runner enters and recovery finalizes instead. */
  lemma RecoverySpawnsOnlyAdmittedRunners(phase: Phase)
    ensures RecoveryDisposition(phase, false) == ResumeDelivery <==> RunnerArrival(phase) == ResumeWaiting
    ensures RunnerArrival(phase) == RunFresh <==>
            RecoveryDisposition(phase, false) == Start || phase in {TerminalOpened, ValidationCompleted}
    ensures RecoveryDisposition(phase, false) == Observe <==> Terminal(phase)
  {
  }
}
