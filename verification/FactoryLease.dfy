/** The machine-wide factory lease: any number of runners, each inside `run_shot` or
    `resume_waiting_delivery`, and one exclusive lock that dies with its holder. */
module FactoryLease {
  import opened Wrappers

  /** Which `take_factory_lease` or device wait a runner is in. */
  datatype Reason = FirstHarness | ResumedDelivery | Retake

  datatype Stage =
    | WaitingForLease(reason: Reason)
    | WaitingForPhone(reason: Reason)
    | Harness
    | Delivering
    | Judging
    | Closing
    | Over

  /** `holds` is the runner's own lease variable. `mayRepair` is true during the first
      harness pass only. `slipped` is history: a device wait or the re-take after it
      failed, so the delivery returned an error with the variable empty. */
  datatype Runner = Runner(stage: Stage, mayRepair: bool, holds: bool, slipped: bool)

  datatype Act =
    | TakeLease
    | TakeFails
    | HarnessEnds(deliver: bool)
    | Delivered
    | DeliveryFails
    | PhoneMissing
    | PhoneArrives
    | PhoneWaitFails
    | Repair
    | NoRepair
    | Finish
    | Abort(orphans: bool)

  function FirstRunner(): Runner { Runner(WaitingForLease(FirstHarness), true, false, false) }

  function ResumedRunner(): Runner { Runner(WaitingForPhone(ResumedDelivery), false, false, false) }

  // ---- One runner ---------------------------------------------------------

  predicate May(r: Runner, act: Act) {
    match act
    case TakeLease => r.stage.WaitingForLease?
    case TakeFails => r.stage.WaitingForLease?
    case HarnessEnds(_) => r.stage.Harness?
    case Delivered => r.stage.Delivering?
    case DeliveryFails => r.stage.Delivering?
    case PhoneMissing => r.stage.Delivering?
    case PhoneArrives => r.stage.WaitingForPhone?
    case PhoneWaitFails => r.stage.WaitingForPhone?
    case Repair => r.stage.Judging? && r.mayRepair
    case NoRepair => r.stage.Judging?
    case Finish => r.stage.Closing?
    case Abort(orphans) => !r.stage.Over? && (orphans ==> InWork(r))
  }

  /** A failed delivery goes back to `run_shot`, which may repair once. */
  function Undelivered(r: Runner): Runner {
    r.(stage := if r.mayRepair then Judging else Closing)
  }

  /** A failed wait inside a delivery is a failed delivery; elsewhere it ends the run. */
  function WaitFailed(r: Runner, reason: Reason): Runner {
    if reason.Retake? then Undelivered(r).(slipped := true) else Ended(r)
  }

  /** Returning drops the lease variable. */
  function Ended(r: Runner): Runner {
    r.(stage := Over, holds := false)
  }

  function Next(r: Runner, act: Act): Runner
    requires May(r, act)
  {
    match act
    case TakeLease => r.(stage := if r.stage.reason.FirstHarness? then Harness else Delivering, holds := true, slipped := false)
    case TakeFails => WaitFailed(r, r.stage.reason)
    case HarnessEnds(deliver) => r.(stage := if deliver then Delivering else Closing)
    case Delivered => r.(stage := Closing)
    case DeliveryFails => Undelivered(r)
    case PhoneMissing => r.(stage := WaitingForPhone(Retake), holds := false)
    case PhoneArrives => r.(stage := WaitingForLease(r.stage.reason))
    case PhoneWaitFails => WaitFailed(r, r.stage.reason)
    case Repair => r.(stage := Harness, mayRepair := false)
    case NoRepair => r.(stage := Closing)
    case Finish => Ended(r)
    case Abort(_) => Ended(r)
  }

  predicate InWork(r: Runner) { r.stage.Harness? || r.stage.Delivering? }

  // ---- All runners --------------------------------------------------------

  /** `orphans` counts the harness and build trees that outlive their runner: it is not
      killed when a supervisor fails or crashes, and does not inherit the lease. */
  datatype State = State(runners: map<nat, Runner>, lease: Option<nat>, orphans: nat)

  datatype Step =
    | Arrive(p: nat, resumed: bool)
    | Do(p: nat, act: Act)
    | Crash(p: nat, orphans: bool)
    | OrphanEnds

  predicate Enabled(s: State, step: Step) {
    match step
    case Arrive(p, _) => p !in s.runners
    case Do(p, act) => p in s.runners && May(s.runners[p], act) && (act.TakeLease? ==> s.lease.None?)
    case Crash(p, orphans) => p in s.runners && (orphans ==> InWork(s.runners[p]))
    case OrphanEnds => 0 < s.orphans
  }

  /** Unlocking happens where a lease variable is dropped while it holds something. */
  function After(s: State, step: Step): State
    requires Enabled(s, step)
  {
    match step
    case Arrive(p, resumed) => s.(runners := s.runners[p := if resumed then ResumedRunner() else FirstRunner()])
    case Do(p, act) =>
      var r := s.runners[p];
      var after := Next(r, act);
      State(s.runners[p := after],
            if act.TakeLease? then Some(p) else if r.holds && !after.holds then None else s.lease,
            if act.Abort? && act.orphans then s.orphans + 1 else s.orphans)
    case Crash(p, orphans) =>
      State(s.runners - {p}, if s.lease == Some(p) then None else s.lease, if orphans then s.orphans + 1 else s.orphans)
    case OrphanEnds => s.(orphans := s.orphans - 1)
  }

  /** A device wait or a lease re-take fails inside a delivery. */
  predicate LosesLease(s: State, step: Step)
    requires Enabled(s, step)
  {
    && step.Do?
    && ((step.act.TakeFails? && s.runners[step.p].stage.reason.Retake?)
        || (step.act.PhoneWaitFails? && s.runners[step.p].stage.reason.Retake?))
  }

  /** The end of a runner leaves its harness or build tree alive. */
  predicate Orphans(step: Step) {
    (step.Crash? && step.orphans) || (step.Do? && step.act.Abort? && step.act.orphans)
  }

  predicate Legal(s: State, steps: seq<Step>)
    decreases |steps|
  {
    steps != [] ==> Enabled(s, steps[0]) && Legal(After(s, steps[0]), steps[1..])
  }

  function Run(s: State, steps: seq<Step>): State
    requires Legal(s, steps)
    decreases |steps|
  {
    if steps == [] then s else Run(After(s, steps[0]), steps[1..])
  }

  /** No device wait and no re-take fails in the whole run, and no tree is orphaned. */
  predicate WaitsSucceed(s: State, steps: seq<Step>)
    requires Legal(s, steps)
    decreases |steps|
  {
    steps != [] ==>
      !LosesLease(s, steps[0]) && !Orphans(steps[0]) && WaitsSucceed(After(s, steps[0]), steps[1..])
  }

  function Initial(): State { State(map[], None, 0) }

  // ---- The invariant ------------------------------------------------------

  predicate RunnerFits(r: Runner) {
    && (r.stage.WaitingForLease? || r.stage.WaitingForPhone? || r.stage.Over? ==> !r.holds)
    && (InWork(r) || r.stage.Judging? || r.stage.Closing? ==> r.holds == !r.slipped)
    && (r.slipped && InWork(r) ==> !r.mayRepair)
    && (r.stage.WaitingForPhone? ==> !r.stage.reason.FirstHarness?)
    && (r.stage.WaitingForLease? && r.stage.reason.FirstHarness? ==> !r.slipped)
  }

  ghost predicate LeaseInvariant(s: State) {
    && (forall p :: p in s.runners ==> RunnerFits(s.runners[p]) && (s.runners[p].holds <==> s.lease == Some(p)))
    && (s.lease.Some? ==> s.lease.value in s.runners)
  }

  lemma FitsNext(r: Runner, act: Act)
    requires RunnerFits(r) && May(r, act)
    ensures RunnerFits(Next(r, act))
    ensures !r.holds && Next(r, act).holds ==> act.TakeLease?
    ensures act.TakeLease? ==> !r.holds && Next(r, act).holds
  {
  }

  lemma LeaseStep(s: State, step: Step)
    requires LeaseInvariant(s) && Enabled(s, step)
    ensures LeaseInvariant(After(s, step))
  {
    if step.Do? {
      FitsNext(s.runners[step.p], step.act);
    }
  }

  lemma {:induction false} LeaseRun(s: State, steps: seq<Step>)
    requires LeaseInvariant(s) && Legal(s, steps)
    ensures LeaseInvariant(Run(s, steps))
    decreases |steps|
  {
    if steps != [] {
      LeaseStep(s, steps[0]);
      LeaseRun(After(s, steps[0]), steps[1..]);
    }
  }

  ghost predicate Reachable(s: State) {
    exists steps: seq<Step> :: Legal(Initial(), steps) && Run(Initial(), steps) == s
  }

  lemma ReachedInvariant(s: State)
    requires Reachable(s)
    ensures LeaseInvariant(s)
  {
    var steps :| Legal(Initial(), steps) && Run(Initial(), steps) == s;
    LeaseRun(Initial(), steps);
  }

  // ---- What holds in every interleaving -----------------------------------

  /** A runner inside harness or build work holds the lease exactly if no failed device
      wait or re-take has cost it the lease, and only a repair pass can have lost it. */
  lemma WorkIsLeased(s: State, p: nat)
    requires Reachable(s) && p in s.runners && InWork(s.runners[p])
    ensures s.lease == Some(p) <==> !s.runners[p].slipped
    ensures s.lease != Some(p) ==> !s.runners[p].mayRepair
  {
    ReachedInvariant(s);
  }

  /** Two runners work at once only if one of them lost the lease that way. */
  lemma WorkIsExclusive(s: State, p: nat, q: nat)
    requires Reachable(s) && p in s.runners && q in s.runners
    requires InWork(s.runners[p]) && InWork(s.runners[q])
    ensures p == q || s.runners[p].slipped || s.runners[q].slipped
  {
    WorkIsLeased(s, p);
    WorkIsLeased(s, q);
  }

  /** A runner blocked on the iPhone or on the lease holds nothing; the lease somebody
      waits for is free to take, or is held by a live runner that waits for neither, and
      a crash of that runner frees it. */
  lemma NoHoldAndWait(s: State, p: nat)
    requires Reachable(s) && p in s.runners
    ensures s.runners[p].stage.WaitingForPhone? || s.runners[p].stage.WaitingForLease? ==> s.lease != Some(p)
    ensures s.runners[p].stage.WaitingForLease? ==>
      match s.lease
      case None => Enabled(s, Do(p, TakeLease)) && After(s, Do(p, TakeLease)).lease == Some(p)
      case Some(q) =>
        && q in s.runners && q != p
        && !s.runners[q].stage.WaitingForPhone? && !s.runners[q].stage.WaitingForLease? && !s.runners[q].stage.Over?
        && Enabled(After(s, Crash(q, InWork(s.runners[q]))), Do(p, TakeLease))
  {
    ReachedInvariant(s);
  }

  ghost predicate NobodySlipped(s: State) {
    s.orphans == 0 && forall p :: p in s.runners ==> !s.runners[p].slipped
  }

  lemma {:induction false} NobodySlipsRun(s: State, steps: seq<Step>)
    requires NobodySlipped(s) && Legal(s, steps) && WaitsSucceed(s, steps)
    ensures NobodySlipped(Run(s, steps))
    decreases |steps|
  {
    if steps != [] {
      NobodySlipsRun(After(s, steps[0]), steps[1..]);
    }
  }

  /** In a run whose device waits and re-takes succeed and whose trees end with their
      runners, one tree works at a time and its runner holds the lease. */
  lemma WorkIsExclusiveWhenWaitsSucceed(steps: seq<Step>, p: nat, q: nat)
    requires Legal(Initial(), steps) && WaitsSucceed(Initial(), steps)
    requires p in Run(Initial(), steps).runners && InWork(Run(Initial(), steps).runners[p])
    requires q in Run(Initial(), steps).runners && InWork(Run(Initial(), steps).runners[q])
    ensures p == q && Run(Initial(), steps).lease == Some(p) && Run(Initial(), steps).orphans == 0
  {
    var start := Initial();
    NobodySlipsRun(start, steps);
    assert Reachable(Run(start, steps));
    WorkIsLeased(Run(start, steps), p);
    WorkIsLeased(Run(start, steps), q);
  }

  // ---- One tree at work ---------------------------------------------------

  /** At most one harness or build tree is at work, orphans included. */
  ghost predicate OneTreeAtWork(s: State) {
    && s.orphans <= 1
    && (forall p :: p in s.runners && InWork(s.runners[p]) ==> s.orphans == 0)
    && (forall p, q :: p in s.runners && q in s.runners && InWork(s.runners[p]) && InWork(s.runners[q]) ==> p == q)
  }

  /** A step that begins harness or build work. */
  predicate Begins(step: Step) {
    step.Do? && (step.act.TakeLease? || step.act.Repair?)
  }

  /** What a runner could look at before it begins: no orphaned tree, nobody else at work
      without the lease, and the lease's holder, if it is another, not at work either. */
  ghost predicate Undisturbed(s: State, p: nat) {
    && s.orphans == 0
    && (forall q :: q in s.runners && q != p && InWork(s.runners[q]) ==> !s.runners[q].slipped)
    && (s.lease.Some? && s.lease.value != p && s.lease.value in s.runners ==> !InWork(s.runners[s.lease.value]))
  }

  ghost predicate AlwaysOneTree(s: State, steps: seq<Step>)
    requires Legal(s, steps)
    decreases |steps|
  {
    OneTreeAtWork(s) && (steps != [] ==> AlwaysOneTree(After(s, steps[0]), steps[1..]))
  }

  ghost predicate AlwaysUndisturbed(s: State, steps: seq<Step>)
    requires Legal(s, steps)
    decreases |steps|
  {
    steps != [] ==>
      (Begins(steps[0]) ==> Undisturbed(s, steps[0].p)) && AlwaysUndisturbed(After(s, steps[0]), steps[1..])
  }

  /** Beginning work keeps one tree at work exactly when the beginner is undisturbed. */
  lemma BeginsAloneExactly(s: State, step: Step)
    requires LeaseInvariant(s) && OneTreeAtWork(s) && Enabled(s, step) && Begins(step)
    ensures OneTreeAtWork(After(s, step)) <==> Undisturbed(s, step.p)
  {
    var p, after := step.p, After(s, step);
    assert InWork(after.runners[p]);
    assert forall q :: q != p && q in s.runners ==> q in after.runners && after.runners[q] == s.runners[q];
  }

  lemma OtherStepsKeepOneTree(s: State, step: Step)
    requires OneTreeAtWork(s) && Enabled(s, step) && !Begins(step)
    ensures OneTreeAtWork(After(s, step))
  {
    var after := After(s, step);
    assert forall q :: q in after.runners && InWork(after.runners[q]) ==> q in s.runners && InWork(s.runners[q]);
  }

  /** One tree is at work at every point of a run if and only if whoever took the lease or
      began a repair was undisturbed. */
  lemma {:induction false} OneTreeExactlyWhenUndisturbed(s: State, steps: seq<Step>)
    requires LeaseInvariant(s) && OneTreeAtWork(s) && Legal(s, steps)
    ensures AlwaysOneTree(s, steps) <==> AlwaysUndisturbed(s, steps)
    decreases |steps|
  {
    if steps != [] {
      var step := steps[0];
      LeaseStep(s, step);
      if Begins(step) {
        BeginsAloneExactly(s, step);
      } else {
        OtherStepsKeepOneTree(s, step);
      }
      if OneTreeAtWork(After(s, step)) {
        OneTreeExactlyWhenUndisturbed(After(s, step), steps[1..]);
      }
    }
  }

  // ---- Where the hypothesis is needed -------------------------------------

  lemma {:induction false} RunExtends(s: State, steps: seq<Step>, last: Step)
    requires Legal(s, steps) && Enabled(Run(s, steps), last)
    ensures Legal(s, steps + [last]) && Run(s, steps + [last]) == After(Run(s, steps), last)
    decreases |steps|
  {
    if steps == [] {
      assert [last][1..] == [];
    } else {
      RunExtends(After(s, steps[0]), steps[1..], last);
      assert (steps + [last])[1..] == steps[1..] + [last];
    }
  }

  lemma ReachableAfter(s: State, step: Step) returns (next: State)
    requires Reachable(s) && Enabled(s, step)
    ensures next == After(s, step) && Reachable(next)
  {
    next := After(s, step);
    var steps :| Legal(Initial(), steps) && Run(Initial(), steps) == s;
    RunExtends(Initial(), steps, step);
  }

  lemma FirstDelivery() returns (s: State)
    ensures Reachable(s) && s == State(map[1 := Runner(Delivering, true, true, false)], Some(1), 0)
  {
    s := Initial();
    assert Legal(s, []) && Run(s, []) == s;
    s := ReachableAfter(s, Arrive(1, false));
    s := ReachableAfter(s, Do(1, TakeLease));
    s := ReachableAfter(s, Do(1, HarnessEnds(true)));
  }

  lemma RepairWithoutLease() returns (s: State)
    ensures Reachable(s) && s == State(map[1 := Runner(Harness, false, false, true)], None, 0)
  {
    s := FirstDelivery();
    s := ReachableAfter(s, Do(1, PhoneMissing));
    s := ReachableAfter(s, Do(1, PhoneWaitFails));
    s := ReachableAfter(s, Do(1, Repair));
  }

  /** A failing device wait followed by an allowed repair: the harness of runner 1 runs
      without the lease beside the harness of runner 2, which holds it. */
  lemma RepairAfterFailedWaitIsUnleased() returns (s: State)
    ensures Reachable(s) && 1 in s.runners && 2 in s.runners
    ensures s.runners[1].stage.Harness? && s.runners[2].stage.Harness? && s.lease == Some(2)
  {
    s := RepairWithoutLease();
    s := ReachableAfter(s, Arrive(2, false));
    s := ReachableAfter(s, Do(2, TakeLease));
  }

  // ---- The delivery loop --------------------------------------------------

  /** How one try of the engine's gates ends, with the point at which a missing iPhone
      leads back to another try or out of the loop. */
  datatype Try =
    | Accepted
    | Refused
    | NoPhone(ending: AfterNoPhone)

  datatype AfterNoPhone = PublishWaitingFails | DeviceWaitFails | RetakeFails | PublishResumedFails | Resumed

  datatype Outcome = StillTrying | Done | Failed

  /** The runner's lease variable and what it does, in order. */
  class DeliveringRunner {
    var lease: bool
    var acts: seq<Act>

    constructor ()
      ensures lease && acts == []
    {
      lease := true;
      acts := [];
    }

    /** One pass of the loop: the engine's gates and, without an iPhone, the wait. */
    method TryOnce(one: Try) returns (outcome: Outcome)
      modifies this
      ensures outcome == TryOutcome(one) && lease == TryLease(old(lease), one)
      ensures acts == old(acts) + TryActs(one)
    {
      outcome := StillTrying;
      var doing: seq<Act>;
      match one {
        case Accepted =>
          doing := [Act.Delivered];
          outcome := Done;
        case Refused =>
          doing := [DeliveryFails];
          outcome := Failed;
        case NoPhone(ending) =>
          if ending.PublishWaitingFails? {
            doing := [DeliveryFails];
            outcome := Failed;
          } else {
            lease := false;
            if ending.DeviceWaitFails? {
              doing := [PhoneMissing, PhoneWaitFails];
              outcome := Failed;
            } else if ending.RetakeFails? {
              doing := [PhoneMissing, PhoneArrives, TakeFails];
              outcome := Failed;
            } else {
              lease := true;
              doing := [PhoneMissing, PhoneArrives, TakeLease];
              if ending.PublishResumedFails? {
                doing := doing + [DeliveryFails];
                outcome := Failed;
              }
            }
          }
      }
      acts := acts + doing;
    }

    /** `record_and_deliver_with_wait`. The lease may already be missing on entry, in the
        repair pass. */
    method RecordAndDeliverWithWait(tries: seq<Try>) returns (outcome: Outcome)
      modifies this
      ensures outcome == OutcomeOf(tries)
      ensures lease == LeaseAfter(old(lease), tries)
      ensures acts == old(acts) + ActsOf(tries)
    {
      var i := 0;
      outcome := StillTrying;
      assert tries[0..] == tries;
      while i < |tries| && outcome.StillTrying?
        invariant 0 <= i <= |tries|
        invariant outcome.StillTrying? ==>
          && OutcomeOf(tries) == OutcomeOf(tries[i..])
          && LeaseAfter(old(lease), tries) == LeaseAfter(lease, tries[i..])
          && old(acts) + ActsOf(tries) == acts + ActsOf(tries[i..])
        invariant !outcome.StillTrying? ==>
          && outcome == OutcomeOf(tries) && lease == LeaseAfter(old(lease), tries)
          && acts == old(acts) + ActsOf(tries)
      {
        outcome := TryOnce(tries[i]);
        i := i + 1;
      }
      assert outcome.StillTrying? ==> tries[i..] == [];
    }
  }

  function TryOutcome(one: Try): Outcome {
    if one.Accepted? then Done
    else if one.Refused? || !one.ending.Resumed? then Failed
    else StillTrying
  }

  predicate Leaves(one: Try) { !TryOutcome(one).StillTrying? }

  /** The outcome of the first try that leaves the loop. */
  function OutcomeOf(tries: seq<Try>): Outcome {
    if tries == [] then StillTrying
    else if Leaves(tries[0]) then TryOutcome(tries[0])
    else OutcomeOf(tries[1..])
  }

  function TryLease(lease: bool, one: Try): bool {
    if one.Accepted? || one.Refused? || one.ending.PublishWaitingFails? then lease
    else one.ending.Resumed? || one.ending.PublishResumedFails?
  }

  function LeaseAfter(lease: bool, tries: seq<Try>): bool
    decreases |tries|
  {
    if tries == [] then lease
    else if Leaves(tries[0]) then TryLease(lease, tries[0])
    else LeaseAfter(TryLease(lease, tries[0]), tries[1..])
  }

  function TryActs(one: Try): seq<Act> {
    match one
    case Accepted => [Delivered]
    case Refused => [DeliveryFails]
    case NoPhone(ending) =>
      match ending
      case PublishWaitingFails => [DeliveryFails]
      case DeviceWaitFails => [PhoneMissing, PhoneWaitFails]
      case RetakeFails => [PhoneMissing, PhoneArrives, TakeFails]
      case PublishResumedFails => [PhoneMissing, PhoneArrives, TakeLease, DeliveryFails]
      case Resumed => [PhoneMissing, PhoneArrives, TakeLease]
  }

  function ActsOf(tries: seq<Try>): seq<Act> {
    if tries == [] then []
    else if Leaves(tries[0]) then TryActs(tries[0])
    else TryActs(tries[0]) + ActsOf(tries[1..])
  }

  predicate Follows(r: Runner, acts: seq<Act>)
    decreases |acts|
  {
    acts != [] ==> May(r, acts[0]) && Follows(Next(r, acts[0]), acts[1..])
  }

  function Followed(r: Runner, acts: seq<Act>): Runner
    requires Follows(r, acts)
    decreases |acts|
  {
    if acts == [] then r else Followed(Next(r, acts[0]), acts[1..])
  }

  /** How often harness work begins: by taking the first lease, and by a repair. */
  function HarnessPasses(r: Runner, acts: seq<Act>): nat
    requires Follows(r, acts)
    decreases |acts|
  {
    if acts == [] then 0
    else
      (if !r.stage.Harness? && Next(r, acts[0]).stage.Harness? then 1 else 0) + HarnessPasses(Next(r, acts[0]), acts[1..])
  }

  lemma {:induction false} PassesLeft(r: Runner, acts: seq<Act>)
    requires Follows(r, acts)
    requires r.stage.WaitingForPhone? ==> !r.stage.reason.FirstHarness?
    ensures HarnessPasses(r, acts) <=
            (if r.mayRepair then 1 else 0) + (if r.stage.WaitingForLease? && r.stage.reason.FirstHarness? then 1 else 0)
    decreases |acts|
  {
    if acts != [] {
      PassesLeft(Next(r, acts[0]), acts[1..]);
    }
  }

  /** A run of an execution does harness work at most twice, a resumed delivery never. */
  lemma AtMostTwoPasses(acts: seq<Act>)
    ensures Follows(FirstRunner(), acts) ==> HarnessPasses(FirstRunner(), acts) <= 2
    ensures Follows(ResumedRunner(), acts) ==> HarnessPasses(ResumedRunner(), acts) == 0
  {
    if Follows(FirstRunner(), acts) {
      PassesLeft(FirstRunner(), acts);
    }
    if Follows(ResumedRunner(), acts) {
      PassesLeft(ResumedRunner(), acts);
    }
  }

  /** A delivery that has failed is repaired or given up, never left; what is done or given
      up is finished and nothing else. */
  lemma DecidesAndFinishes(r: Runner, act: Act)
    requires May(r, act) && !act.Abort?
    ensures r.stage.Judging? <==> act in {Repair, NoRepair}
    ensures r.stage.Closing? <==> act == Finish
    ensures act == Finish ==> Next(r, act).stage.Over?
    ensures act == NoRepair ==> Next(r, act).stage.Closing?
  {
  }

  lemma {:induction false} FollowsBoth(r: Runner, first: seq<Act>, second: seq<Act>)
    requires Follows(r, first) && Follows(Followed(r, first), second)
    ensures Follows(r, first + second) && Followed(r, first + second) == Followed(Followed(r, first), second)
    decreases |first|
  {
    if first == [] {
      assert first + second == second;
    } else {
      FollowsBoth(Next(r, first[0]), first[1..], second);
      assert (first + second)[1..] == first[1..] + second;
    }
  }

  lemma FollowsTwo(r: Runner, first: Act, second: Act)
    requires May(r, first) && May(Next(r, first), second)
    ensures Follows(r, [first, second]) && Followed(r, [first, second]) == Next(Next(r, first), second)
  {
    FollowsBoth(r, [first], [second]);
    assert [first] + [second] == [first, second];
  }

  /** Where one try leaves a delivering runner. */
  function AfterTry(r: Runner, one: Try): Runner {
    match one
    case Accepted => r.(stage := Closing)
    case Refused => Undelivered(r)
    case NoPhone(ending) =>
      match ending
      case PublishWaitingFails => Undelivered(r)
      case DeviceWaitFails => Undelivered(r).(holds := false, slipped := true)
      case RetakeFails => Undelivered(r).(holds := false, slipped := true)
      case PublishResumedFails => Undelivered(r).(holds := true, slipped := false)
      case Resumed => r.(holds := true, slipped := false)
  }

  lemma TryFollows(r: Runner, one: Try)
    requires r.stage.Delivering?
    ensures Follows(r, TryActs(one)) && Followed(r, TryActs(one)) == AfterTry(r, one)
  {
    if one.NoPhone? && one.ending.DeviceWaitFails? {
      FollowsTwo(r, PhoneMissing, PhoneWaitFails);
    } else if one.NoPhone? && !one.ending.PublishWaitingFails? {
      FollowsTwo(r, PhoneMissing, PhoneArrives);
      var arrived := Next(Next(r, PhoneMissing), PhoneArrives);
      if one.ending.PublishResumedFails? {
        FollowsTwo(arrived, TakeLease, DeliveryFails);
        FollowsBoth(r, [PhoneMissing, PhoneArrives], [TakeLease, DeliveryFails]);
      } else {
        var act := if one.ending.RetakeFails? then TakeFails else TakeLease;
        FollowsBoth(r, [PhoneMissing, PhoneArrives], [act]);
      }
    }
  }

  /** The loop's acts are a walk of the one-runner machine, and its lease variable and
      outcome are where that walk ends: without the lease it returns an error exactly
      when its last device wait or re-take failed, or it had none to begin with. */
  lemma {:induction false} LoopFollowsMachine(r: Runner, tries: seq<Try>)
    requires r.stage.Delivering?
    ensures Follows(r, ActsOf(tries))
    ensures var after := Followed(r, ActsOf(tries));
            && after.holds == LeaseAfter(r.holds, tries)
            && (after.stage.Delivering? <==> OutcomeOf(tries).StillTrying?)
            && (OutcomeOf(tries).Failed? ==> after.stage == Undelivered(r).stage)
            && (OutcomeOf(tries).Done? ==> after.stage.Closing?)
            && (OutcomeOf(tries).Done? && r.holds ==> after.holds)
    decreases |tries|
  {
    if tries != [] {
      TryFollows(r, tries[0]);
      if !Leaves(tries[0]) {
        LoopFollowsMachine(AfterTry(r, tries[0]), tries[1..]);
        FollowsBoth(r, TryActs(tries[0]), ActsOf(tries[1..]));
      }
    }
  }
}
