/** One command's `status.json`: the locked read-modify-write of `transition`, alone and
    under any interleaving of processes that may crash at every step. */
module JournalTransitions {
  import opened Wrappers
  import opened Command

  datatype Status<R> = Status(state: CommandState, updatedAt: nat, receipt: Option<R>, rejection: Option<string>)

  datatype Request<R> = Request(next: CommandState, receipt: Option<R>, rejection: Option<string>, now: nat)

  datatype Refusal = CannotTransition | DifferentReceipt | ReceiptRequired | ReasonRequired | CannotReplace

  // ---- One transition -----------------------------------------------------

  /** A receipt given now counts only where none is stored; a reason given now replaces
      a stored one. */
  function Merged<R>(current: Status<R>, request: Request<R>): Status<R> {
    Status(request.next, request.now,
           if current.receipt.Some? then current.receipt else request.receipt,
           if request.rejection.Some? then request.rejection else current.rejection)
  }

  function Transitioned<R(==)>(current: Status<R>, request: Request<R>): Result<Status<R>, Refusal> {
    var status := Merged(current, request);
    if !current.state.MayTransitionTo(request.next) then Err(CannotTransition)
    else if current.receipt.Some? && request.receipt.Some? && current.receipt != request.receipt then Err(DifferentReceipt)
    else if request.next == Completed && status.receipt.None? then Err(ReceiptRequired)
    else if request.next == Rejected && (status.rejection.None? || status.rejection.value == "") then Err(ReasonRequired)
    else if current.state == request.next then
      if current.receipt == status.receipt && current.rejection == status.rejection then Ok(current) else Err(CannotReplace)
    else Ok(status)
  }

  /** What a status promises on its own. */
  predicate WellFormed<R>(status: Status<R>) {
    && (status.state == Completed ==> status.receipt.Some?)
    && (status.state == Rejected ==> status.rejection.Some? && status.rejection.value != "")
  }

  /** What a later status keeps of an earlier one. */
  predicate Keeps<R(==)>(earlier: Status<R>, later: Status<R>) {
    && earlier.state.Rank() <= later.state.Rank()
    && (earlier.state.Rank() == later.state.Rank() ==> earlier == later || (earlier.state.InProgress() && later.state.InProgress()))
    && (earlier.state.Terminal() ==> later == earlier)
    && (earlier.receipt.Some? ==> later.receipt == earlier.receipt)
    && (earlier.rejection.Some? ==> later.rejection.Some?)
  }

  /** A transition succeeds exactly when the relation allows it, the receipt given (if
      any) is not a second one, the target's demand is met, and a request for the state
      already published brings nothing new. */
  lemma TransitionSucceedsExactly<R>(current: Status<R>, request: Request<R>)
    ensures Transitioned(current, request).Ok? <==>
      && current.state.MayTransitionTo(request.next)
      && (current.receipt.None? || request.receipt.None? || request.receipt == current.receipt)
      && WellFormed(Merged(current, request))
      && (current.state == request.next ==>
            (request.receipt.Some? ==> request.receipt == current.receipt)
            && (request.rejection.Some? ==> request.rejection == current.rejection))
  {
  }

  /** One transition keeps everything but a reason that is given anew, publishes what was
      asked at the time it was asked, leaves a well-formed status, and may be repeated with
      the same request without effect. */
  lemma TransitionKeeps<R>(current: Status<R>, request: Request<R>)
    requires WellFormed(current) && Transitioned(current, request).Ok?
    ensures var next := Transitioned(current, request).value;
      && WellFormed(next) && Keeps(current, next) && next.state == request.next
      && (if request.receipt.Some? then next.receipt == request.receipt else next.receipt == current.receipt)
      && (if request.rejection.Some? then next.rejection == request.rejection else next.rejection == current.rejection)
      && (if current.state == request.next then next == current else next.updatedAt == request.now)
      && forall later :: Transitioned(next, request.(now := later)) == Ok(next)
  {
  }

  class StatusFile<R(==)> {
    var state: CommandState
    var updatedAt: nat
    var receipt: Option<R>
    var rejection: Option<string>

    function Contents(): Status<R>
      reads this
    {
      Status(state, updatedAt, receipt, rejection)
    }

    constructor (now: nat)
      ensures Contents() == Status(Received, now, None, None)
    {
      state, updatedAt, receipt, rejection := Received, now, None, None;
    }

    /** `transition`, under the status lock: refuses without a change, or publishes. */
    method Transition(next: CommandState, given: Option<R>, reason: Option<string>, now: nat)
      returns (outcome: Result<Status<R>, Refusal>)
      modifies this
      ensures outcome == Transitioned(old(Contents()), Request(next, given, reason, now))
      ensures Contents() == (if outcome.Ok? then outcome.value else old(Contents()))
    {
      if !state.MayTransitionTo(next) {
        return Err(CannotTransition);
      }
      var result := receipt;
      if result.None? {
        result := given;
      } else if given.Some? && given != result {
        return Err(DifferentReceipt);
      }
      var rejected := if reason.Some? then reason else rejection;
      if next == Completed && result.None? {
        return Err(ReceiptRequired);
      }
      if next == Rejected && (rejected.None? || rejected.value == "") {
        return Err(ReasonRequired);
      }
      if state == next {
        if receipt == result && rejection == rejected {
          return Ok(Contents());
        }
        return Err(CannotReplace);
      }
      state, updatedAt, receipt, rejection := next, now, result, rejected;
      return Ok(Contents());
    }
  }

  // ---- Many processes -----------------------------------------------------

  datatype Stage<R> =
    | WaitingForLock
    | Locked
    | Loaded(current: Status<R>)
    | Returned(outcome: Result<Status<R>, Refusal>)

  datatype Caller<R> = Caller(request: Request<R>, stage: Stage<R>)

  /** `status.json` is replaced by rename, so a crash leaves the old or the new one. */
  datatype State<R> = State(callers: map<nat, Caller<R>>, lock: Option<nat>, file: Status<R>)

  datatype Step<R> =
    | Call(p: nat, request: Request<R>)
    | Lock(p: nat)
    | Load(p: nat)
    | Publish(p: nat)
    | Crash(p: nat)

  predicate Enabled<R(==)>(s: State<R>, step: Step<R>) {
    match step
    case Call(p, _) => p !in s.callers
    case Lock(p) => p in s.callers && s.callers[p].stage.WaitingForLock? && s.lock.None?
    case Load(p) => p in s.callers && s.callers[p].stage.Locked?
    case Publish(p) => p in s.callers && s.callers[p].stage.Loaded?
    case Crash(p) => p in s.callers
  }

  function At<R>(s: State<R>, p: nat, stage: Stage<R>): map<nat, Caller<R>>
    requires p in s.callers
  {
    s.callers[p := s.callers[p].(stage := stage)]
  }

  function After<R(==)>(s: State<R>, step: Step<R>): State<R>
    requires Enabled(s, step)
  {
    match step
    case Call(p, request) => s.(callers := s.callers[p := Caller(request, WaitingForLock)])
    case Lock(p) => s.(callers := At(s, p, Locked), lock := Some(p))
    case Load(p) => s.(callers := At(s, p, Loaded(s.file)))
    case Publish(p) =>
      var outcome := Transitioned(s.callers[p].stage.current, s.callers[p].request);
      State(At(s, p, Returned(outcome)), None, if outcome.Ok? then outcome.value else s.file)
    case Crash(p) => State(s.callers - {p}, if s.lock == Some(p) then None else s.lock, s.file)
  }

  predicate Legal<R(==)>(s: State<R>, steps: seq<Step<R>>)
    decreases |steps|
  {
    steps != [] ==> Enabled(s, steps[0]) && Legal(After(s, steps[0]), steps[1..])
  }

  function Run<R(==)>(s: State<R>, steps: seq<Step<R>>): State<R>
    requires Legal(s, steps)
    decreases |steps|
  {
    if steps == [] then s else Run(After(s, steps[0]), steps[1..])
  }

  /** Only the lock's holder is between locking and publishing, it has read what is still
      on disk, and every caller that returned was told a status the file keeps. */
  ghost predicate JournalInvariant<R>(s: State<R>) {
    && WellFormed(s.file)
    && (forall p :: p in s.callers && (s.callers[p].stage.Locked? || s.callers[p].stage.Loaded?) ==> s.lock == Some(p))
    && (forall p :: p in s.callers && s.callers[p].stage.Loaded? ==> s.callers[p].stage.current == s.file)
    && (forall p :: p in s.callers && s.callers[p].stage.Returned? && s.callers[p].stage.outcome.Ok? ==>
          Keeps(s.callers[p].stage.outcome.value, s.file))
  }

  lemma JournalStep<R>(s: State<R>, step: Step<R>)
    requires JournalInvariant(s) && Enabled(s, step)
    ensures JournalInvariant(After(s, step)) && Keeps(s.file, After(s, step).file)
  {
    if step.Publish? {
      var outcome := Transitioned(s.callers[step.p].stage.current, s.callers[step.p].request);
      if outcome.Ok? {
        TransitionKeeps(s.file, s.callers[step.p].request);
        forall p | p in s.callers && s.callers[p].stage.Returned? && s.callers[p].stage.outcome.Ok?
          ensures Keeps(s.callers[p].stage.outcome.value, outcome.value)
        {
        }
      }
    }
  }

  lemma {:induction false} JournalRun<R>(s: State<R>, steps: seq<Step<R>>)
    requires JournalInvariant(s) && Legal(s, steps)
    ensures JournalInvariant(Run(s, steps)) && Keeps(s.file, Run(s, steps).file)
    decreases |steps|
  {
    if steps != [] {
      JournalStep(s, steps[0]);
      JournalRun(After(s, steps[0]), steps[1..]);
    }
  }

  function Admitted<R>(now: nat): State<R> {
    State(map[], None, Status(Received, now, None, None))
  }

  /** On every run from admission, split at any point: the status is well formed, what it
      was at that point is kept, and so is what every successful caller was told. */
  lemma StatusOnlyAdvances<R>(now: nat, before: seq<Step<R>>, rest: seq<Step<R>>)
    requires Legal(Admitted<R>(now), before) && Legal(Run(Admitted<R>(now), before), rest)
    ensures var middle := Run(Admitted<R>(now), before);
      var end := Run(middle, rest);
      && WellFormed(end.file) && Keeps(middle.file, end.file)
      && forall p :: p in end.callers && end.callers[p].stage.Returned? && end.callers[p].stage.outcome.Ok? ==>
           Keeps(end.callers[p].stage.outcome.value, end.file)
  {
    JournalRun(Admitted<R>(now), before);
    JournalRun(Run(Admitted<R>(now), before), rest);
  }
}
