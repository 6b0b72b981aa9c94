/** The supervisor of one harness process, and the two invocations a run may make under
    one shared budget. Times are milliseconds of a clock that does not run backwards. */
module HarnessBudget {
  import opened Wrappers

  const TickPeriod: nat := 3_000
  const HeartbeatPeriod: nat := 60_000
  const GracefulStop: nat := 30_000
  const Overrun: nat := 96_000
  const MaxInvocations: nat := 2

  datatype Reason = WroteNothing(minutes: nat) | BudgetSpent

  /** Where a tick of the supervisor returns an error, if the point is reached. */
  datatype Fault = NoFault | ScanFails | HeartbeatFails | ReasonFails

  /** `wins`: the tick is handled although the harness has already exited. `progress`: the
      workspace fingerprint differs from the one read last. */
  datatype Event =
    | Tick(at: nat, wins: bool, dirty: bool, progress: bool, fault: Fault)
    | Interrupt(at: nat)

  datatype Limits = Limits(budgetStart: nat, budget: nat, stall: nat)

  datatype Watch = Watch(
    beatAt: nat,
    progressAt: nat,
    reported: bool,
    reason: Option<Reason>,
    termAt: Option<nat>,
    killAt: Option<nat>,
    cancelled: bool)

  datatype Ending =
    | Exited(at: nat, watch: Watch)
    | Unsupervised(watch: Watch)
    | Watching(watch: Watch)

  /** `bounded_duration_setting`, in seconds. */
  function BoundedSetting(configured: Option<nat>, standard: nat, maximum: nat): (seconds: nat)
    requires 0 < standard && 0 < maximum
    ensures 0 < seconds <= maximum
    ensures configured.Some? && 0 < configured.value <= maximum ==> seconds == configured.value
    ensures configured.Some? && maximum <= configured.value ==> seconds == maximum
    ensures configured in {None, Some(0)} && standard <= maximum ==> seconds == standard
  {
    var chosen := if configured.Some? && configured.value > 0 then configured.value else standard;
    if chosen < maximum then chosen else maximum
  }

  function Elapsed(now: nat, since: nat): nat {
    if now < since then 0 else now - since
  }

  // ---- One invocation, as a function --------------------------------------

  function Launched(launch: nat, reported: bool): Watch {
    Watch(launch, launch, reported, None, None, None, false)
  }

  function ForcedStop(w: Watch, at: nat): Watch {
    if w.killAt.None? && w.termAt.Some? && Elapsed(at, w.termAt.value) >= GracefulStop
    then w.(killAt := Some(at)) else w
  }

  function StopReason(limits: Limits, w: Watch, at: nat): Option<Reason> {
    if w.reason.Some? then w.reason
    else if Elapsed(at, w.progressAt) >= limits.stall then Some(WroteNothing(Elapsed(at, w.progressAt) / 60_000))
    else if Elapsed(at, limits.budgetStart) >= limits.budget then Some(BudgetSpent)
    else None
  }

  function Heartbeat(limits: Limits, w: Watch, tick: Event): Result<Watch, Watch>
    requires tick.Tick?
  {
    var read := if tick.progress then w.(progressAt := tick.at) else w;
    if tick.fault.HeartbeatFails? then Err(read)
    else
      var reason := StopReason(limits, read, tick.at);
      var beat := read.(beatAt := tick.at, reason := reason);
      if reason.None? || beat.termAt.Some? then Ok(beat)
      else if tick.fault.ReasonFails? then Err(beat)
      else Ok(beat.(termAt := Some(tick.at)))
  }

  /** One tick: the forced stop first, then the workspace scan, then a due heartbeat. */
  function OnTick(limits: Limits, w: Watch, tick: Event): Result<Watch, Watch>
    requires tick.Tick?
  {
    var forced := ForcedStop(w, tick.at);
    if !forced.reported && tick.fault.ScanFails? then Err(forced)
    else
      var scanned := forced.(reported := forced.reported || tick.dirty);
      if Elapsed(tick.at, scanned.beatAt) < HeartbeatPeriod then Ok(scanned)
      else Heartbeat(limits, scanned, tick)
  }

  /** When the harness dies, if ever: by itself at `exit`, or at once on SIGKILL. */
  function Death(w: Watch, exit: Option<nat>): Option<nat> {
    if w.killAt.None? || (exit.Some? && exit.value < w.killAt.value) then exit else w.killAt
  }

  predicate ExitSeen(w: Watch, exit: Option<nat>, event: Event) {
    Death(w, exit).Some? && Death(w, exit).value <= event.at && !(event.Tick? && event.wins)
  }

  function Supervise(limits: Limits, exit: Option<nat>, w: Watch, events: seq<Event>): Ending
    decreases |events|
  {
    if events == [] then Watching(w)
    else if ExitSeen(w, exit, events[0]) then Exited(Death(w, exit).value, w)
    else match events[0]
      case Interrupt(_) => Supervise(limits, exit, w.(cancelled := true), events[1..])
      case Tick(_, _, _, _, _) =>
        match OnTick(limits, w, events[0])
        case Err(last) => Unsupervised(last)
        case Ok(next) => Supervise(limits, exit, next, events[1..])
  }

  // ---- One invocation, as the loop ----------------------------------------

  class Supervisor {
    var beatAt: nat
    var progressAt: nat
    var reported: bool
    var reason: Option<Reason>
    var termAt: Option<nat>
    var killAt: Option<nat>
    var cancelled: bool

    function View(): Watch
      reads this
    {
      Watch(beatAt, progressAt, reported, reason, termAt, killAt, cancelled)
    }

    constructor (launch: nat, changed: bool)
      ensures View() == Launched(launch, changed)
    {
      beatAt, progressAt, reported := launch, launch, changed;
      reason, termAt, killAt, cancelled := None, None, None, false;
    }

    /** The part of a tick that runs once a minute. */
    method HandleHeartbeat(limits: Limits, tick: Event) returns (ok: bool)
      requires tick.Tick?
      modifies this
      ensures Heartbeat(limits, old(View()), tick) == if ok then Ok(View()) else Err(View())
    {
      if tick.progress {
        progressAt := tick.at;
      }
      if tick.fault.HeartbeatFails? {
        return false;
      }
      beatAt := tick.at;
      var idle := Elapsed(tick.at, progressAt);
      if reason.None? && idle >= limits.stall {
        reason := Some(WroteNothing(idle / 60_000));
      } else if reason.None? && Elapsed(tick.at, limits.budgetStart) >= limits.budget {
        reason := Some(BudgetSpent);
      }
      if termAt.None? && reason.Some? {
        if tick.fault.ReasonFails? {
          return false;
        }
        termAt := Some(tick.at);
      }
      ok := true;
    }

    /** What the supervisor does when its interval ticks. */
    method HandleTick(limits: Limits, tick: Event) returns (ok: bool)
      requires tick.Tick?
      modifies this
      ensures OnTick(limits, old(View()), tick) == if ok then Ok(View()) else Err(View())
    {
      if killAt.None? && termAt.Some? && Elapsed(tick.at, termAt.value) >= GracefulStop {
        killAt := Some(tick.at);
      }
      if !reported {
        if tick.fault.ScanFails? {
          return false;
        }
        reported := tick.dirty;
      }
      if Elapsed(tick.at, beatAt) >= HeartbeatPeriod {
        ok := HandleHeartbeat(limits, tick);
      } else {
        ok := true;
      }
    }

    /** The loop of `execute_harness`: wait for the exit, tick, or take Ctrl-C. */
    method ExecuteHarness(limits: Limits, exit: Option<nat>, events: seq<Event>) returns (ending: Ending)
      modifies this
      ensures ending == Supervise(limits, exit, old(View()), events)
      ensures ending.watch == View()
    {
      var i := 0;
      while i < |events|
        invariant 0 <= i <= |events|
        invariant Supervise(limits, exit, View(), events[i..]) == Supervise(limits, exit, old(View()), events)
      {
        assert events[i..][0] == events[i] && events[i..][1..] == events[i + 1..];
        if ExitSeen(View(), exit, events[i]) {
          return Exited(Death(View(), exit).value, View());
        }
        if events[i].Interrupt? {
          cancelled := true;
        } else {
          var ok := HandleTick(limits, events[i]);
          if !ok {
            return Unsupervised(View());
          }
        }
        i := i + 1;
      }
      return Watching(View());
    }
  }

  // ---- The bound ----------------------------------------------------------

  /** Time goes forward and no interval between two ticks is longer than the period. */
  predicate Timely(last: nat, events: seq<Event>)
    decreases |events|
  {
    events != [] ==>
      && last <= events[0].at <= last + TickPeriod
      && Timely(if events[0].Tick? then events[0].at else last, events[1..])
  }

  predicate Faultless(events: seq<Event>) {
    forall i :: 0 <= i < |events| && events[i].Tick? ==> events[i].fault.NoFault?
  }

  /** The budget's end, or the launch when that is later. */
  function Deadline(limits: Limits, launch: nat): nat {
    var end := limits.budgetStart + limits.budget;
    if launch < end then end else launch
  }

  predicate OnSchedule(deadline: nat, last: nat, w: Watch) {
    && w.beatAt <= last < w.beatAt + HeartbeatPeriod
    && (w.termAt.None? ==> w.killAt.None? && w.reason.None? && w.beatAt <= deadline)
    && (w.termAt.Some? ==> w.reason.Some? && w.termAt.value < deadline + HeartbeatPeriod + TickPeriod)
    && (w.termAt.Some? && w.killAt.None? ==> last < w.termAt.value + GracefulStop)
    && (w.killAt.Some? ==> w.termAt.value + GracefulStop <= w.killAt.value < deadline + Overrun)
  }

  /** From the deadline on, a heartbeat finds a reason to stop: the budget has ended, or
      the workspace has not changed since the progress last seen. */
  predicate Doomed(limits: Limits, deadline: nat, w: Watch, events: seq<Event>) {
    || limits.budgetStart + limits.budget <= deadline
    || (w.progressAt + limits.stall <= deadline && forall i :: 0 <= i < |events| && events[i].Tick? ==> !events[i].progress)
  }

  lemma TickOnSchedule(limits: Limits, deadline: nat, last: nat, w: Watch, tick: Event)
    requires tick.Tick? && last <= tick.at <= last + TickPeriod
    requires OnSchedule(deadline, last, w) && Doomed(limits, deadline, w, [tick])
    ensures match OnTick(limits, w, tick)
            case Ok(next) => OnSchedule(deadline, tick.at, next) && (!tick.progress ==> next.progressAt == w.progressAt)
            case Err(_) => !tick.fault.NoFault?
  {
    assert [tick][0] == tick;
  }

  /** A harness is dead before the deadline plus 96 seconds: it has exited, or has been
      killed by then, or the schedule has not come that far. */
  predicate InTime(deadline: nat, exit: Option<nat>, events: seq<Event>, ending: Ending) {
    match ending
    case Exited(at, _) => at < deadline + Overrun
    case Watching(w) =>
      if w.killAt.Some? then w.killAt.value < deadline + Overrun
      else forall i :: 0 <= i < |events| ==> events[i].at < deadline + Overrun
    case Unsupervised(_) => !Faultless(events)
  }

  /** SIGKILL comes no earlier than 30 seconds after SIGTERM, whatever the schedule. */
  predicate InOrder(w: Watch) {
    && (w.termAt.Some? ==> w.reason.Some?)
    && (w.killAt.Some? ==> w.termAt.Some? && w.termAt.value + GracefulStop <= w.killAt.value)
  }

  lemma TickInOrder(limits: Limits, w: Watch, tick: Event)
    requires tick.Tick? && InOrder(w)
    ensures var ticked := OnTick(limits, w, tick); InOrder(if ticked.Ok? then ticked.value else ticked.error)
  {
  }

  lemma {:induction false} SignalsInOrder(limits: Limits, exit: Option<nat>, w: Watch, events: seq<Event>)
    requires InOrder(w)
    ensures InOrder(Supervise(limits, exit, w, events).watch)
    decreases |events|
  {
    if events != [] && !ExitSeen(w, exit, events[0]) {
      if events[0].Interrupt? {
        SignalsInOrder(limits, exit, w.(cancelled := true), events[1..]);
      } else {
        var ticked := OnTick(limits, w, events[0]);
        TickInOrder(limits, w, events[0]);
        if ticked.Ok? {
          SignalsInOrder(limits, exit, ticked.value, events[1..]);
        }
      }
    }
  }

  lemma {:induction false} SupervisedInTime(
    limits: Limits, deadline: nat, exit: Option<nat>, last: nat, w: Watch, events: seq<Event>)
    requires Timely(last, events) && OnSchedule(deadline, last, w) && Doomed(limits, deadline, w, events)
    ensures InTime(deadline, exit, events, Supervise(limits, exit, w, events))
    decreases |events|
  {
    if events == [] {
    } else if ExitSeen(w, exit, events[0]) {
    } else {
      if events[0].Interrupt? {
        SupervisedInTime(limits, deadline, exit, last, w.(cancelled := true), events[1..]);
      } else {
        TickOnSchedule(limits, deadline, last, w, events[0]);
        var ticked := OnTick(limits, w, events[0]);
        if ticked.Ok? {
          SupervisedInTime(limits, deadline, exit, events[0].at, ticked.value, events[1..]);
        }
      }
    }
  }

  /** One invocation whose ticks come on time and do not fail: the harness is dead before
      the deadline plus 96 seconds, whether or not it honours SIGTERM. */
  lemma HarnessEndsInTime(limits: Limits, launch: nat, reported: bool, exit: Option<nat>, events: seq<Event>)
    requires Timely(launch, events) && Faultless(events)
    ensures var ending := Supervise(limits, exit, Launched(launch, reported), events);
      && !ending.Unsupervised?
      && (ending.Exited? ==> ending.at < Deadline(limits, launch) + Overrun)
      && (ending.Watching? && ending.watch.killAt.Some? ==>
            ending.watch.killAt.value < Deadline(limits, launch) + Overrun)
      && (ending.Watching? && ending.watch.killAt.None? ==>
            forall i :: 0 <= i < |events| ==> events[i].at < Deadline(limits, launch) + Overrun)
  {
    SupervisedInTime(limits, Deadline(limits, launch), exit, launch, Launched(launch, reported), events);
  }

  /** A harness that changes nothing is dead before its stall time plus 96 seconds,
      however much of the budget is left. */
  lemma IdleHarnessEndsInTime(limits: Limits, launch: nat, reported: bool, exit: Option<nat>, events: seq<Event>)
    requires Timely(launch, events) && Faultless(events)
    requires forall i :: 0 <= i < |events| && events[i].Tick? ==> !events[i].progress
    ensures var ending := Supervise(limits, exit, Launched(launch, reported), events);
      && (ending.Exited? ==> ending.at < launch + limits.stall + Overrun)
      && (ending.Watching? && ending.watch.killAt.Some? ==>
            ending.watch.killAt.value < launch + limits.stall + Overrun)
      && (ending.Watching? && ending.watch.killAt.None? ==>
            forall i :: 0 <= i < |events| ==> events[i].at < launch + limits.stall + Overrun)
  {
    SupervisedInTime(limits, launch + limits.stall, exit, launch, Launched(launch, reported), events);
  }

  // ---- Where the hypothesis is needed -------------------------------------

  /** An exit after every event is not seen by the supervisor: it ends as with a harness
      that never exits by itself. */
  lemma {:induction false} LateExitIsUnseen(limits: Limits, exit: nat, w: Watch, events: seq<Event>)
    requires forall i :: 0 <= i < |events| ==> events[i].at < exit
    requires w.killAt.Some? ==> w.killAt.value < exit
    ensures Supervise(limits, Some(exit), w, events) == Supervise(limits, None, w, events)
    decreases |events|
  {
    if events != [] && !ExitSeen(w, None, events[0]) {
      if events[0].Interrupt? {
        LateExitIsUnseen(limits, exit, w.(cancelled := true), events[1..]);
      } else {
        var ticked := OnTick(limits, w, events[0]);
        if ticked.Ok? {
          LateExitIsUnseen(limits, exit, ticked.value, events[1..]);
        }
      }
    }
  }

  /** Some harness that exits by itself only after `limit` lives until it does. */
  ghost predicate Outlives(limits: Limits, launch: nat, reported: bool, events: seq<Event>, limit: nat) {
    exists exit: nat ::
      var ending := Supervise(limits, Some(exit), Launched(launch, reported), events);
      exit > limit && ending.Unsupervised? && Death(ending.watch, Some(exit)) == Some(exit)
  }

  function Latest(events: seq<Event>): (latest: nat)
    ensures forall i :: 0 <= i < |events| ==> events[i].at <= latest
  {
    if events == [] then 0
    else if Latest(events[1..]) < events[0].at then events[0].at else Latest(events[1..])
  }

  // ---- Read off the schedule ----------------------------------------------
  //
  // What the supervisor has before tick i, as functions of the schedule alone.

  /** When the last heartbeat before tick i was due, or the launch. */
  function LastBeat(launch: nat, events: seq<Event>, i: nat): nat
    requires i <= |events|
  {
    if i == 0 then launch
    else
      var before := LastBeat(launch, events, i - 1);
      if events[i - 1].Tick? && Elapsed(events[i - 1].at, before) >= HeartbeatPeriod then events[i - 1].at else before
  }

  predicate BeatDue(launch: nat, events: seq<Event>, i: nat)
    requires i < |events|
  {
    events[i].Tick? && Elapsed(events[i].at, LastBeat(launch, events, i)) >= HeartbeatPeriod
  }

  /** When the workspace was last seen to change before tick i, or the launch. */
  function LastProgress(launch: nat, events: seq<Event>, i: nat): nat
    requires i <= |events|
  {
    if i == 0 then launch
    else if BeatDue(launch, events, i - 1) && events[i - 1].progress then events[i - 1].at
    else LastProgress(launch, events, i - 1)
  }

  predicate ReportedBefore(reported: bool, events: seq<Event>, i: nat)
    requires i <= |events|
  {
    reported || exists j :: 0 <= j < i && events[j].Tick? && events[j].dirty
  }

  /** How long the harness has been idle at a heartbeat. */
  function IdleAt(launch: nat, events: seq<Event>, i: nat): nat
    requires i < |events| && events[i].Tick?
  {
    if events[i].progress then 0 else Elapsed(events[i].at, LastProgress(launch, events, i))
  }

  /** The heartbeat at tick i finds the harness idle for too long or the budget spent. */
  predicate StopDue(limits: Limits, launch: nat, events: seq<Event>, i: nat)
    requires i < |events|
  {
    && BeatDue(launch, events, i)
    && (limits.stall <= IdleAt(launch, events, i) || limits.budget <= Elapsed(events[i].at, limits.budgetStart))
  }

  /** When SIGTERM is due before tick i: at the first stop. */
  function TermBefore(limits: Limits, launch: nat, events: seq<Event>, i: nat): Option<nat>
    requires i <= |events|
  {
    if i == 0 then None
    else if TermBefore(limits, launch, events, i - 1).Some? then TermBefore(limits, launch, events, i - 1)
    else if StopDue(limits, launch, events, i - 1) then Some(events[i - 1].at)
    else None
  }

  /** SIGKILL is due at tick i: 30 seconds after SIGTERM. */
  predicate KillDue(limits: Limits, launch: nat, events: seq<Event>, i: nat)
    requires i < |events|
  {
    && events[i].Tick? && TermBefore(limits, launch, events, i).Some?
    && Elapsed(events[i].at, TermBefore(limits, launch, events, i).value) >= GracefulStop
  }

  /** Tick i reaches its fault point: the scan while nothing was reported, a heartbeat
      that is due, or the report of a stop that is due for the first time. */
  predicate FaultReached(limits: Limits, launch: nat, reported: bool, events: seq<Event>, i: nat)
    requires i < |events|
  {
    && events[i].Tick?
    && match events[i].fault
       case NoFault => false
       case ScanFails => !ReportedBefore(reported, events, i)
       case HeartbeatFails => BeatDue(launch, events, i)
       case ReasonFails => StopDue(limits, launch, events, i) && TermBefore(limits, launch, events, i).None?
  }

  /** The supervisor fails at tick i, before SIGKILL is due: no earlier tick fails. */
  ghost predicate FailsBeforeKill(limits: Limits, launch: nat, reported: bool, events: seq<Event>, i: nat) {
    && i < |events| && FaultReached(limits, launch, reported, events, i)
    && (forall j :: 0 <= j < i ==> !FaultReached(limits, launch, reported, events, j))
    && (forall j :: 0 <= j <= i ==> !KillDue(limits, launch, events, j))
  }

  /** Why the harness is stopped: idleness comes before the budget. */
  function ReasonBefore(limits: Limits, launch: nat, events: seq<Event>, i: nat): Option<Reason>
    requires i <= |events|
  {
    if i == 0 then None
    else if ReasonBefore(limits, launch, events, i - 1).Some? then ReasonBefore(limits, launch, events, i - 1)
    else if !StopDue(limits, launch, events, i - 1) then None
    else if limits.stall <= IdleAt(launch, events, i - 1) then Some(WroteNothing(IdleAt(launch, events, i - 1) / 60_000))
    else Some(BudgetSpent)
  }

  function KillBefore(limits: Limits, launch: nat, events: seq<Event>, i: nat): Option<nat>
    requires i <= |events|
  {
    if i == 0 then None
    else if KillBefore(limits, launch, events, i - 1).Some? then KillBefore(limits, launch, events, i - 1)
    else if KillDue(limits, launch, events, i - 1) then Some(events[i - 1].at)
    else None
  }

  predicate InterruptedBefore(events: seq<Event>, i: nat)
    requires i <= |events|
  {
    exists j :: 0 <= j < i && events[j].Interrupt?
  }

  function WatchOf(limits: Limits, launch: nat, reported: bool, events: seq<Event>, i: nat): Watch
    requires i <= |events|
  {
    Watch(LastBeat(launch, events, i), LastProgress(launch, events, i), ReportedBefore(reported, events, i),
          ReasonBefore(limits, launch, events, i), TermBefore(limits, launch, events, i),
          KillBefore(limits, launch, events, i), InterruptedBefore(events, i))
  }

  /** The wait wins at event i: the harness has exited by itself or has been killed. */
  predicate SeenAt(limits: Limits, launch: nat, exit: Option<nat>, events: seq<Event>, i: nat)
    requires i < |events|
  {
    && !(events[i].Tick? && events[i].wins)
    && (|| (exit.Some? && exit.value <= events[i].at)
        || (KillBefore(limits, launch, events, i).Some? && KillBefore(limits, launch, events, i).value <= events[i].at))
  }

  /** The first event at which the harness is seen to have ended or supervision fails. */
  ghost predicate EndsAt(limits: Limits, launch: nat, reported: bool, exit: Option<nat>, events: seq<Event>, i: nat) {
    && i < |events|
    && (SeenAt(limits, launch, exit, events, i) || FaultReached(limits, launch, reported, events, i))
    && forall j :: 0 <= j < i ==>
         !SeenAt(limits, launch, exit, events, j) && !FaultReached(limits, launch, reported, events, j)
  }

  lemma {:induction false} ReasonAndTerm(limits: Limits, launch: nat, events: seq<Event>, i: nat)
    requires i <= |events|
    ensures ReasonBefore(limits, launch, events, i).Some? <==> TermBefore(limits, launch, events, i).Some?
    ensures ReasonBefore(limits, launch, events, i).Some? <==> exists j :: 0 <= j < i && StopDue(limits, launch, events, j)
  {
    if i > 0 {
      ReasonAndTerm(limits, launch, events, i - 1);
      assert StopDue(limits, launch, events, i - 1) ==> exists j :: 0 <= j < i && StopDue(limits, launch, events, j);
    }
  }

  lemma {:induction false} KilledBefore(limits: Limits, launch: nat, events: seq<Event>, i: nat)
    requires i <= |events|
    ensures KillBefore(limits, launch, events, i).Some? <==> exists j :: 0 <= j < i && KillDue(limits, launch, events, j)
    ensures KillBefore(limits, launch, events, i).Some? ==> TermBefore(limits, launch, events, i).Some?
  {
    if i > 0 {
      KilledBefore(limits, launch, events, i - 1);
      assert KillDue(limits, launch, events, i - 1) ==> exists j :: 0 <= j < i && KillDue(limits, launch, events, j);
    }
  }

  /** The part of a tick that runs once a minute, on what the schedule says. */
  lemma HeartbeatBySchedule(limits: Limits, launch: nat, events: seq<Event>, i: nat, w: Watch)
    requires i < |events| && BeatDue(launch, events, i)
    requires w.beatAt == LastBeat(launch, events, i) && w.progressAt == LastProgress(launch, events, i)
    requires w.termAt == TermBefore(limits, launch, events, i) && w.reason == ReasonBefore(limits, launch, events, i)
    ensures var beat := Heartbeat(limits, w, events[i]);
      && (beat.Err? <==> events[i].fault.HeartbeatFails?
                         || (events[i].fault.ReasonFails? && StopDue(limits, launch, events, i) && w.termAt.None?))
      && (beat.Ok? ==> beat.value == w.(beatAt := LastBeat(launch, events, i + 1),
                                        progressAt := LastProgress(launch, events, i + 1),
                                        termAt := TermBefore(limits, launch, events, i + 1),
                                        reason := ReasonBefore(limits, launch, events, i + 1)))
      && (beat.Err? ==> beat.error.killAt == w.killAt)
  {
    ReasonAndTerm(limits, launch, events, i);
    var read := if events[i].progress then w.(progressAt := events[i].at) else w;
    assert Elapsed(events[i].at, read.progressAt) == IdleAt(launch, events, i);
    assert StopReason(limits, read, events[i].at) == ReasonBefore(limits, launch, events, i + 1);
  }

  /** A tick fails exactly at its fault point, and otherwise leaves what the schedule says. */
  lemma TickBySchedule(limits: Limits, launch: nat, reported: bool, events: seq<Event>, i: nat)
    requires i < |events| && events[i].Tick?
    ensures var ticked := OnTick(limits, WatchOf(limits, launch, reported, events, i), events[i]);
      && (ticked.Err? <==> FaultReached(limits, launch, reported, events, i))
      && (ticked.Ok? ==> ticked.value == WatchOf(limits, launch, reported, events, i + 1))
      && (ticked.Err? ==> ticked.error.killAt == KillBefore(limits, launch, events, i + 1))
  {
    var w := WatchOf(limits, launch, reported, events, i);
    var forced := ForcedStop(w, events[i].at);
    assert forced.killAt == KillBefore(limits, launch, events, i + 1);
    assert ReportedBefore(reported, events, i + 1) <==> ReportedBefore(reported, events, i) || events[i].dirty;
    assert InterruptedBefore(events, i + 1) == InterruptedBefore(events, i);
    if BeatDue(launch, events, i) {
      HeartbeatBySchedule(limits, launch, events, i, forced.(reported := w.reported || events[i].dirty));
    } else {
      ReasonAndTerm(limits, launch, events, i);
    }
  }

  lemma SeenBySchedule(limits: Limits, launch: nat, reported: bool, exit: Option<nat>, events: seq<Event>, i: nat)
    requires i < |events|
    ensures ExitSeen(WatchOf(limits, launch, reported, events, i), exit, events[i]) <==> SeenAt(limits, launch, exit, events, i)
  {
  }

  /** From event i on the supervisor ends as the schedule says. */
  lemma {:induction false} EndsBySchedule(
    limits: Limits, launch: nat, reported: bool, exit: Option<nat>, events: seq<Event>, i: nat)
    requires i <= |events|
    requires forall j :: 0 <= j < i ==>
      !SeenAt(limits, launch, exit, events, j) && !FaultReached(limits, launch, reported, events, j)
    ensures var ending := Supervise(limits, exit, WatchOf(limits, launch, reported, events, i), events[i..]);
      && (forall k: nat :: EndsAt(limits, launch, reported, exit, events, k) ==>
            if SeenAt(limits, launch, exit, events, k) then ending.Exited? && ending.watch == WatchOf(limits, launch, reported, events, k)
            else ending.Unsupervised? && ending.watch.killAt == KillBefore(limits, launch, events, k + 1))
      && ((forall k: nat :: !EndsAt(limits, launch, reported, exit, events, k)) ==>
            ending == Watching(WatchOf(limits, launch, reported, events, |events|)))
    decreases |events| - i
  {
    if i < |events| {
      assert events[i..][0] == events[i] && events[i..][1..] == events[i + 1..];
      SeenBySchedule(limits, launch, reported, exit, events, i);
      if SeenAt(limits, launch, exit, events, i) {
        assert EndsAt(limits, launch, reported, exit, events, i);
      } else if events[i].Interrupt? {
        InterruptBySchedule(limits, launch, reported, events, i);
        EndsBySchedule(limits, launch, reported, exit, events, i + 1);
      } else {
        TickBySchedule(limits, launch, reported, events, i);
        if FaultReached(limits, launch, reported, events, i) {
          assert EndsAt(limits, launch, reported, exit, events, i);
        } else {
          EndsBySchedule(limits, launch, reported, exit, events, i + 1);
        }
      }
    }
  }

  lemma InterruptBySchedule(limits: Limits, launch: nat, reported: bool, events: seq<Event>, i: nat)
    requires i < |events| && events[i].Interrupt?
    ensures WatchOf(limits, launch, reported, events, i).(cancelled := true) == WatchOf(limits, launch, reported, events, i + 1)
  {
    assert ReportedBefore(reported, events, i + 1) == ReportedBefore(reported, events, i);
    assert InterruptedBefore(events, i + 1);
  }

  /** The supervisor, read off the schedule: it sees the end of the harness at the first
      event that finds it exited or killed, it gives up at the first fault point before
      that, and else it is still watching; what it has noted by then - heartbeats, progress,
      the reason, SIGTERM, SIGKILL, Ctrl-C - is what the schedule says. */
  lemma SupervisedBySchedule(limits: Limits, launch: nat, reported: bool, exit: Option<nat>, events: seq<Event>)
    ensures var ending := Supervise(limits, exit, Launched(launch, reported), events);
      && (forall k: nat :: EndsAt(limits, launch, reported, exit, events, k) ==>
            if SeenAt(limits, launch, exit, events, k) then ending.Exited? && ending.watch == WatchOf(limits, launch, reported, events, k)
            else ending.Unsupervised? && ending.watch.killAt == KillBefore(limits, launch, events, k + 1))
      && ((forall k: nat :: !EndsAt(limits, launch, reported, exit, events, k)) ==>
            ending == Watching(WatchOf(limits, launch, reported, events, |events|)))
  {
    assert events[0..] == events;
    assert WatchOf(limits, launch, reported, events, 0) == Launched(launch, reported);
    EndsBySchedule(limits, launch, reported, exit, events, 0);
  }

  /** The time it reports is that of the exit or of SIGKILL, whichever came first. */
  lemma {:induction false} ExitTime(limits: Limits, exit: Option<nat>, w: Watch, events: seq<Event>)
    requires Supervise(limits, exit, w, events).Exited?
    ensures var ending := Supervise(limits, exit, w, events);
      && (exit == Some(ending.at) || ending.watch.killAt == Some(ending.at))
      && (exit.Some? ==> ending.at <= exit.value) && (ending.watch.killAt.Some? ==> ending.at <= ending.watch.killAt.value)
    decreases |events|
  {
    if !ExitSeen(w, exit, events[0]) {
      if events[0].Interrupt? {
        ExitTime(limits, exit, w.(cancelled := true), events[1..]);
      } else {
        ExitTime(limits, exit, OnTick(limits, w, events[0]).value, events[1..]);
      }
    }
  }

  lemma GivenUpBySchedule(limits: Limits, launch: nat, reported: bool, events: seq<Event>)
    ensures var ending := Supervise(limits, None, Launched(launch, reported), events);
      (ending.Unsupervised? && ending.watch.killAt.None?) <==> exists k :: FailsBeforeKill(limits, launch, reported, events, k)
  {
    SupervisedBySchedule(limits, launch, reported, None, events);
    forall i | 0 <= i <= |events|
      ensures KillBefore(limits, launch, events, i).Some? <==> exists j :: 0 <= j < i && KillDue(limits, launch, events, j)
    {
      KilledBefore(limits, launch, events, i);
    }
    forall k | FailsBeforeKill(limits, launch, reported, events, k)
      ensures EndsAt(limits, launch, reported, None, events, k)
    {
    }
    forall k: nat | EndsAt(limits, launch, reported, None, events, k) && !SeenAt(limits, launch, None, events, k)
               && KillBefore(limits, launch, events, k + 1).None?
      ensures FailsBeforeKill(limits, launch, reported, events, k)
    {
      forall j | 0 <= j <= k ensures !KillDue(limits, launch, events, j) {
      }
    }
  }

  /** A harness that ignores SIGTERM can outlive every bound exactly when some tick of the
      schedule reaches its fault point before SIGKILL is due. */
  lemma FaultBeforeKillIsUnbounded(limits: Limits, launch: nat, reported: bool, events: seq<Event>)
    ensures (forall limit: nat :: Outlives(limits, launch, reported, events, limit))
            <==> exists i :: FailsBeforeKill(limits, launch, reported, events, i)
  {
    var start := Launched(launch, reported);
    var ending := Supervise(limits, None, start, events);
    GivenUpBySchedule(limits, launch, reported, events);
    if ending.Unsupervised? && ending.watch.killAt.None? {
      forall limit: nat ensures Outlives(limits, launch, reported, events, limit) {
        LateExitIsUnseen(limits, limit + Latest(events) + 1, start, events);
      }
    } else {
      var limit := Latest(events) + (if ending.watch.killAt.Some? then ending.watch.killAt.value else 0);
      if Outlives(limits, launch, reported, events, limit) {
        var exit: nat :| exit > limit && Supervise(limits, Some(exit), start, events).Unsupervised?
          && Death(Supervise(limits, Some(exit), start, events).watch, Some(exit)) == Some(exit);
        LateExitIsUnseen(limits, exit, start, events);
        assert false;
      }
    }
  }

  /** On the clock: a harness that writes nothing under a stall bound of one minute gets
      SIGTERM at the first heartbeat, 60 seconds in, and SIGKILL 30 seconds later, neither
      a millisecond earlier. */
  lemma StubbornHarnessIsKilled(exit: nat)
    requires exit > 90_000
    ensures var ticks := [Tick(59_999, false, true, false, NoFault), Tick(60_000, false, true, false, NoFault),
                          Tick(89_999, false, true, false, NoFault), Tick(90_000, false, true, false, NoFault)];
      var limits := Limits(0, 1_000_000, 60_000);
      && Supervise(limits, Some(exit), Launched(0, false), ticks[..1]) == Watching(Watch(0, 0, true, None, None, None, false))
      && Supervise(limits, Some(exit), Launched(0, false), ticks[..3]) ==
           Watching(Watch(60_000, 0, true, Some(WroteNothing(1)), Some(60_000), None, false))
      && Supervise(limits, Some(exit), Launched(0, false), ticks) ==
           Watching(Watch(60_000, 0, true, Some(WroteNothing(1)), Some(60_000), Some(90_000), false))
  {
    var limits := Limits(0, 1_000_000, 60_000);
    var a, b := Tick(59_999, false, true, false, NoFault), Tick(60_000, false, true, false, NoFault);
    var c, d := Tick(89_999, false, true, false, NoFault), Tick(90_000, false, true, false, NoFault);
    var quiet := Watch(0, 0, true, None, None, None, false);
    var stopped := Watch(60_000, 0, true, Some(WroteNothing(1)), Some(60_000), None, false);
    assert OnTick(limits, Launched(0, false), a) == Ok(quiet) && OnTick(limits, quiet, b) == Ok(stopped);
    assert OnTick(limits, stopped, c) == Ok(stopped) && OnTick(limits, stopped, d) == Ok(stopped.(killAt := Some(90_000)));
    assert [a, b, c, d][..3] == [a, b, c] && [a, b, c, d][..1] == [a];
    assert [a][1..] == [] && [a, b, c][1..] == [b, c] && [b, c][1..] == [c] && [c][1..] == [];
    assert [a, b, c, d][1..] == [b, c, d] && [b, c, d][1..] == [c, d] && [c, d][1..] == [d] && [d][1..] == [];
    assert Supervise(limits, Some(exit), stopped, [c]) == Watching(stopped);
    assert Supervise(limits, Some(exit), quiet, [b, c]) == Watching(stopped);
    assert Supervise(limits, Some(exit), stopped, [d]) == Watching(stopped.(killAt := Some(90_000)));
    assert Supervise(limits, Some(exit), stopped, [c, d]) == Watching(stopped.(killAt := Some(90_000)));
    assert Supervise(limits, Some(exit), quiet, [b, c, d]) == Watching(stopped.(killAt := Some(90_000)));
  }

  /** Failing to append a heartbeat is such a fault. */
  lemma FailedHeartbeatLeavesHarness(limits: Limits, limit: nat)
    ensures Outlives(limits, 0, false, [Tick(60_000, false, false, false, HeartbeatFails)], limit)
  {
    var events := [Tick(60_000, false, false, false, HeartbeatFails)];
    assert FailsBeforeKill(limits, 0, false, events, 0);
    FaultBeforeKillIsUnbounded(limits, 0, false, events);
  }

  /** A harness seen to progress at every heartbeat before the budget ends is never
      signalled and never given up. */
  lemma {:induction false} ProductiveHarnessIsLeftAlone(
    limits: Limits, exit: Option<nat>, w: Watch, events: seq<Event>)
    requires Faultless(events) && 0 < limits.stall && 0 < limits.budget
    requires w.reason.None? && w.termAt.None? && w.killAt.None?
    requires forall i :: 0 <= i < |events| && events[i].Tick? ==>
      events[i].progress && events[i].at < limits.budgetStart + limits.budget
    ensures var after := Supervise(limits, exit, w, events).watch;
            after.reason.None? && after.termAt.None? && after.killAt.None?
    decreases |events|
  {
    if events != [] && !ExitSeen(w, exit, events[0]) {
      if events[0].Interrupt? {
        ProductiveHarnessIsLeftAlone(limits, exit, w.(cancelled := true), events[1..]);
      } else {
        ProductiveHarnessIsLeftAlone(limits, exit, OnTick(limits, w, events[0]).value, events[1..]);
      }
    }
  }

  // ---- The invocations of one run -----------------------------------------

  /** `repair_allowed`, the diagnostic's classification being given. */
  predicate RepairAllowed(invocations: nat, repairable: bool, elapsed: nat, budget: nat) {
    invocations < MaxInvocations && elapsed < budget && repairable
  }

  datatype Invocation = Invocation(launch: nat, exit: Option<nat>, succeeded: bool, events: seq<Event>)

  /** The engine's verdict between the two invocations. */
  datatype Verdict = Accepted | Rejected(at: nat, repairable: bool)

  /** The harness invocations of `run_shot`; `repair` is what the second would do, and it
      is launched at the verdict or later. */
  function Invocations(limits: Limits, first: Invocation, verdict: Verdict, repair: Invocation): seq<Invocation> {
    var ending := Supervise(limits, first.exit, Launched(first.launch, false), first.events);
    if ending.Exited? && first.succeeded && !ending.watch.cancelled && ending.watch.reason.None?
       && verdict.Rejected? && RepairAllowed(1, verdict.repairable, Elapsed(verdict.at, limits.budgetStart), limits.budget)
    then [first, repair]
    else [first]
  }

  /** The harness exited by itself at event i: nothing before it failed, stopped the
      harness, or was Ctrl-C. */
  ghost predicate ExitsCleanly(limits: Limits, invocation: Invocation, i: nat) {
    var launch, events := invocation.launch, invocation.events;
    && i < |events| && SeenAt(limits, launch, invocation.exit, events, i)
    && forall j :: 0 <= j < i ==>
         && !SeenAt(limits, launch, invocation.exit, events, j) && !FaultReached(limits, launch, false, events, j)
         && !StopDue(limits, launch, events, j) && !events[j].Interrupt?
  }

  /** The harness is run a second time if and only if the first one was seen to exit by
      itself and successfully, without Ctrl-C and without having been stopped, and its work
      was rejected for something repairable while the one budget lasted. */
  lemma RepairedExactly(limits: Limits, first: Invocation, verdict: Verdict, repair: Invocation)
    ensures Invocations(limits, first, verdict, repair) == [first, repair] <==>
      && first.succeeded && (exists i :: ExitsCleanly(limits, first, i))
      && verdict.Rejected? && verdict.repairable
      && 0 < limits.budget && verdict.at < limits.budgetStart + limits.budget
    ensures Invocations(limits, first, verdict, repair) in {[first], [first, repair]}
  {
    var ending := Supervise(limits, first.exit, Launched(first.launch, false), first.events);
    SupervisedBySchedule(limits, first.launch, false, first.exit, first.events);
    forall i | 0 <= i <= |first.events|
      ensures ReasonBefore(limits, first.launch, first.events, i).Some? <==>
              exists j :: 0 <= j < i && StopDue(limits, first.launch, first.events, j)
    {
      ReasonAndTerm(limits, first.launch, first.events, i);
    }
    forall i | ExitsCleanly(limits, first, i)
      ensures EndsAt(limits, first.launch, false, first.exit, first.events, i)
    {
    }
    if ending.Exited? && !ending.watch.cancelled && ending.watch.reason.None? {
      var i: nat :| EndsAt(limits, first.launch, false, first.exit, first.events, i);
      forall j | 0 <= j < i ensures !StopDue(limits, first.launch, first.events, j) && !first.events[j].Interrupt? {
      }
      assert ExitsCleanly(limits, first, i);
    }
    assert |[first]| == 1 && |[first, repair]| == 2;
  }

  /** A run invokes the harness at most twice, a repair is judged before the one budget's
      end and does not restart its clock, and no harness is alive 96 seconds after the
      budget's end, or after its own launch when that was later still. */
  lemma RunInvocationsEndInTime(
    limits: Limits, first: Invocation, verdict: Verdict, repair: Invocation, k: nat)
    requires verdict.Rejected? ==> limits.budgetStart <= verdict.at <= repair.launch
    requires Timely(first.launch, first.events) && Faultless(first.events)
    requires Timely(repair.launch, repair.events) && Faultless(repair.events)
    requires k < |Invocations(limits, first, verdict, repair)|
    ensures |Invocations(limits, first, verdict, repair)| <= 2
    ensures k == 1 ==> verdict.Rejected? && verdict.at < limits.budgetStart + limits.budget
    ensures var invocation := Invocations(limits, first, verdict, repair)[k];
      var reported := k > 0 && Supervise(limits, first.exit, Launched(first.launch, false), first.events).watch.reported;
      var ending := Supervise(limits, invocation.exit, Launched(invocation.launch, reported), invocation.events);
      InTime(Deadline(limits, invocation.launch), invocation.exit, invocation.events, ending) && !ending.Unsupervised?
  {
    var invocation := Invocations(limits, first, verdict, repair)[k];
    var reported := k > 0 && Supervise(limits, first.exit, Launched(first.launch, false), first.events).watch.reported;
    HarnessEndsInTime(limits, invocation.launch, reported, invocation.exit, invocation.events);
  }
}
