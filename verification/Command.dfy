/** The states of a local command and the transition relation that everything else
    about commands rests on. */
module Command {

  datatype CommandKind = ShotCreate | ShotEvolve | FeedbackSubmit | MarketingSubmit

  datatype CommandState =
    | Received
    | Validated
    | Accepted
    | Running
    | WaitingForDevice
    | Completed
    | Rejected
    | Failed
    | Cancelled
  {
    predicate Terminal() {
      this in {Completed, Rejected, Failed, Cancelled}
    }

    predicate MayTransitionTo(next: CommandState) {
      || this == next
      || match this
         case Received => next in {Validated, Rejected, Failed}
         case Validated => next in {Accepted, Rejected, Failed}
         case Accepted => next in {Running, CommandState.Completed, Rejected, Failed, Cancelled}
         case Running => next in {WaitingForDevice, CommandState.Completed, Failed, Cancelled}
         case WaitingForDevice => next in {Running, CommandState.Completed, Failed, Cancelled}
         case _ => false
    }

    /** How far along the command is; the two states of a running execution share one. */
    function Rank(): nat {
      match this
      case Received => 0
      case Validated => 1
      case Accepted => 2
      case Running | WaitingForDevice => 3
      case _ => 4
    }

    predicate InProgress() {
      Running? || WaitingForDevice?
    }
  }

  predicate EnteredFrom(a: CommandState, b: CommandState) {
    match b
    case Received => false
    case Validated => a == Received
    case Accepted => a == Validated
    case Running => a == Accepted || a == WaitingForDevice
    case WaitingForDevice => a == Running
    case Completed | Cancelled => a.Rank() >= 2
    case Rejected => a.Rank() <= 2
    case Failed => true
  }

  /** The transition relation read by target: where each state may be entered from. */
  lemma TransitionsByTarget(a: CommandState, b: CommandState)
    requires a != b
    ensures a.MayTransitionTo(b) <==> (!a.Terminal() && EnteredFrom(a, b))
  {
  }

  /** `b` is reachable from `a` by some number of transitions. */
  ghost predicate LeadsTo(a: CommandState, b: CommandState, steps: nat)
    decreases steps
  {
    if steps == 0 then a == b
    else exists next: CommandState :: a.MayTransitionTo(next) && LeadsTo(next, b, steps - 1)
  }

  /** Transitions never go back: the rank rises, except between the two states of a
      running execution, and a terminal state is final. */
  lemma {:induction false} TransitionsAdvance(a: CommandState, b: CommandState, steps: nat)
    requires LeadsTo(a, b, steps)
    ensures a.Rank() <= b.Rank()
    ensures a.Rank() == b.Rank() ==> a == b || (a.InProgress() && b.InProgress())
    ensures a.Terminal() ==> a == b
    decreases steps
  {
    if steps > 0 {
      var next: CommandState :| a.MayTransitionTo(next) && LeadsTo(next, b, steps - 1);
      TransitionsAdvance(next, b, steps - 1);
    }
  }
}
