/** The private entitlement store, as release builds have it: five successful days inside
    a seven-day trial, then a verified subscription. Dates are day numbers and times are
    instants; text that does not parse is `None`. */
module Entitlement {
  import opened Wrappers

  const RequiredSuccessfulDays: nat := 5
  const TrialCalendarDays: int := 7
  const MaximumRevision: nat := 0xFFFF_FFFF_FFFF_FFFF

  type Parsed = Option<int>

  datatype Phase =
    | GenesisIncomplete
    | TrialActive
    | TrialQualified
    | TrialExpired
    | ProMonthly
    | ProYearly
    | ProLapsed

  predicate Pro(phase: Phase) { phase.ProMonthly? || phase.ProYearly? || phase.ProLapsed? }

  /** `factory_mutations_allowed`, the answer `require_new_factory_mutation` turns on. */
  predicate FactoryAllowed(phase: Phase) { phase.TrialActive? || phase.ProMonthly? || phase.ProYearly? }

  predicate PurchaseAllowed(phase: Phase) { phase.TrialQualified? || phase.ProLapsed? }

  datatype Evidence = Evidence(
    localDate: Parsed,
    command: string,
    execution: string,
    version: string,
    acceptedAt: Parsed)

  datatype Plan = Monthly | Yearly

  datatype Subscription = Subscription(
    id: string,
    plan: Plan,
    issuedAt: Parsed,
    paidThrough: Parsed,
    cancelling: bool,
    providerRevision: nat,
    receiptDigest: string)

  datatype State = State(
    revision: nat,
    phase: Phase,
    genesisAt: Option<Parsed>,
    genesisDate: Option<Parsed>,
    days: seq<Evidence>,
    subscription: Option<Subscription>,
    migrated: bool)

  datatype Error =
    | InvalidState
    | InvalidTimestamp
    | InvalidEvidence
    | DateDiffers
    | InvalidSubscription
    | NotYetAvailable
    | RevisionBackwards
    | RevisionConflict

  // ---- Validation ---------------------------------------------------------

  predicate IdChar(c: char, dots: bool) {
    'a' <= c <= 'z' || 'A' <= c <= 'Z' || '0' <= c <= '9' || c == '_' || c == '-' || (dots && c == '.')
  }

  predicate ValidId(id: string, dots: bool) {
    0 < |id| <= 160 && forall i :: 0 <= i < |id| ==> IdChar(id[i], dots)
  }

  predicate ValidEvidence(e: Evidence) {
    && e.localDate.Some? && e.acceptedAt.Some?
    && ValidId(e.command, true) && ValidId(e.execution, true) && ValidId(e.version, true)
  }

  predicate ValidDigest(digest: string) {
    |digest| == 64 && forall i :: 0 <= i < 64 ==> '0' <= digest[i] <= '9' || 'a' <= digest[i] <= 'f'
  }

  predicate ValidSubscription(s: Subscription) {
    && s.providerRevision != 0 && ValidId(s.id, false) && ValidDigest(s.receiptDigest)
    && s.issuedAt.Some? && s.paidThrough.Some? && s.issuedAt.value < s.paidThrough.value
  }

  /** No key of one is the same key of the other. */
  predicate Apart(a: Evidence, b: Evidence) {
    a.localDate != b.localDate && a.command != b.command && a.execution != b.execution && a.version != b.version
  }

  predicate AllApart(days: seq<Evidence>) {
    forall i, j :: 0 <= i < j < |days| ==> Apart(days[i], days[j])
  }

  predicate ValidAnchor(s: State) {
    if s.genesisAt.None? && s.genesisDate.None? then s.phase.GenesisIncomplete?
    else s.genesisAt.Some? && s.genesisDate.Some? && s.genesisAt.value.Some? && s.genesisDate.value.Some?
  }

  /** What `validate_state` accepts. */
  predicate ValidState(s: State) {
    && s.revision != 0
    && ValidAnchor(s)
    && |s.days| <= RequiredSuccessfulDays
    && (forall i :: 0 <= i < |s.days| ==> ValidEvidence(s.days[i]))
    && AllApart(s.days)
    && (s.phase.TrialQualified? ==> |s.days| == RequiredSuccessfulDays)
    && (Pro(s.phase) ==> s.subscription.Some? && ValidSubscription(s.subscription.value))
  }

  lemma HexDigits(c: char)
    ensures '0' <= c <= '9' || 'a' <= c <= 'f' <==> c in "0123456789abcdef"
  {
    var digits := "0123456789abcdef";
    if '0' <= c <= '9' {
      assert digits[c as int - '0' as int] == c;
    } else if 'a' <= c <= 'f' {
      assert digits[10 + c as int - 'a' as int] == c;
    }
  }

  /** Identifiers have one to 160 characters, letters, digits, `_` and `-`; keys of a day
      may have dots as well, a subscription's may not. A receipt digest has 64 lower-case
      hexadecimal digits. */
  lemma IdentifierBounds(id: string, c: char)
    ensures ValidId(seq(160, i => 'a'), false) && !ValidId(seq(161, i => 'a'), true) && !ValidId("", true)
    ensures c in ['a', 'z', 'A', 'Z', '0', '9', '_', '-'] ==> ValidId([c], false)
    ensures c in ['/', ':', '@', '[', '`', '{', ' ', '.'] ==> !ValidId([c], false)
    ensures ValidId([c], true) <==> ValidId([c], false) || c == '.'
    ensures ValidDigest(seq(64, i => c)) <==> c in "0123456789abcdef"
    ensures !ValidDigest(seq(63, i => 'a')) && !ValidDigest(seq(65, i => 'a'))
    ensures ValidId(id, true) <==> 1 <= |id| <= 160 && forall i :: 0 <= i < |id| ==> ValidId([id[i]], true)
  {
    assert ValidDigest(seq(64, i => c)) ==> '0' <= seq(64, i => c)[0] <= '9' || 'a' <= seq(64, i => c)[0] <= 'f';
    HexDigits(c);
    assert [c][0] == c && (ValidId([c], true) <==> IdChar([c][0], true)) && (ValidId([c], false) <==> IdChar([c][0], false));
    forall i | 0 <= i < |id| ensures ValidId([id[i]], true) <==> IdChar(id[i], true) {
      assert [id[i]][0] == id[i];
    }
  }

  /** `validate_state`, with its sets of keys seen so far. */
  method ValidateState(s: State) returns (ok: bool)
    ensures ok <==> ValidState(s)
  {
    if s.revision == 0 || !ValidAnchor(s) || |s.days| > RequiredSuccessfulDays {
      return false;
    }
    var dates: set<Parsed> := {};
    var commands: set<string>, executions: set<string>, versions: set<string> := {}, {}, {};
    for k := 0 to |s.days|
      invariant dates == set j | 0 <= j < k :: s.days[j].localDate
      invariant commands == set j | 0 <= j < k :: s.days[j].command
      invariant executions == set j | 0 <= j < k :: s.days[j].execution
      invariant versions == set j | 0 <= j < k :: s.days[j].version
      invariant forall i :: 0 <= i < k ==> ValidEvidence(s.days[i])
      invariant forall i, j :: 0 <= i < j < k ==> Apart(s.days[i], s.days[j])
    {
      var e := s.days[k];
      if !ValidEvidence(e) {
        return false;
      }
      if e.localDate in dates || e.command in commands || e.execution in executions || e.version in versions {
        assert exists i :: 0 <= i < k && !Apart(s.days[i], s.days[k]);
        return false;
      }
      dates, commands := dates + {e.localDate}, commands + {e.command};
      executions, versions := executions + {e.execution}, versions + {e.version};
    }
    if s.phase.TrialQualified? && |s.days| != RequiredSuccessfulDays {
      return false;
    }
    return Pro(s.phase) ==> s.subscription.Some? && ValidSubscription(s.subscription.value);
  }

  // ---- Operations ---------------------------------------------------------

  /** `Err(InvalidState)`: a stored value the phase relies on is missing. */
  function Refreshed(s: State, now: int, today: int): Result<State, Error> {
    if s.phase.TrialActive? then
      if s.genesisDate.None? || s.genesisDate.value.None? then Err(InvalidState)
      else if today >= s.genesisDate.value.value + TrialCalendarDays then Ok(s.(phase := TrialExpired))
      else Ok(s)
    else if s.phase.ProMonthly? || s.phase.ProYearly? then
      if s.subscription.None? || s.subscription.value.paidThrough.None? then Err(InvalidState)
      else if s.subscription.value.paidThrough.value <= now then Ok(s.(phase := ProLapsed))
      else Ok(s)
    else Ok(s)
  }

  function Bumped(s: State): State {
    s.(revision := if s.revision < MaximumRevision then s.revision + 1 else s.revision)
  }

  predicate Dated(e: Evidence) { e.localDate.Some? }

  function Insert(e: Evidence, days: seq<Evidence>): seq<Evidence>
    requires Dated(e) && forall i :: 0 <= i < |days| ==> Dated(days[i])
  {
    if days == [] then [e]
    else if assert Dated(days[0]); e.localDate.value < days[0].localDate.value then [e] + days
    else [days[0]] + Insert(e, days[1..])
  }

  predicate Ordered(days: seq<Evidence>) {
    && (forall i :: 0 <= i < |days| ==> Dated(days[i]))
    && (forall i, j :: 0 <= i < j < |days| ==> days[i].localDate.value < days[j].localDate.value)
  }

  datatype Op =
    | Status(now: int, today: int)
    | CompleteGenesis(at: Parsed, today: int)
    | MigratePairing(at: Parsed, today: int)
    | RecordDay(evidence: Evidence, now: int, today: int)
    | Install(subscription: Subscription, now: int, today: int)

  /** What a write would leave: nothing, when the state does not pass `validate_state`. */
  function Write(next: State): Result<State, Error> {
    if ValidState(next) then Ok(next) else Err(InvalidState)
  }

  predicate Duplicate(days: seq<Evidence>, e: Evidence) {
    exists i :: 0 <= i < |days| && !Apart(days[i], e)
  }

  /** What `validate_subscription` accepts. */
  predicate Current(subscription: Subscription, now: int) {
    ValidSubscription(subscription) && now < subscription.paidThrough.value
  }

  /** The file after a successful operation; an error leaves it as it was. */
  function Applied(s: State, op: Op): Result<State, Error> {
    if op.Install? && !Current(op.subscription, op.now) then Err(InvalidSubscription)
    else if !ValidState(s) then Err(InvalidState)
    else match op
      case Status(now, today) =>
        (match Refreshed(s, now, today)
         case Err(error) => Err(error)
         case Ok(renewed) => if renewed != s then Write(Bumped(renewed)) else Ok(s))
      case CompleteGenesis(at, today) => Anchored(s, at, today, s.migrated)
      case MigratePairing(at, today) => Anchored(s, at, today, true)
      case RecordDay(evidence, now, today) =>
        (match Refreshed(s, now, today)
         case Err(error) => Err(error)
         case Ok(renewed) =>
           if !renewed.phase.TrialActive? then (if renewed != s then Write(Bumped(renewed)) else Ok(s))
           else Recorded(renewed, evidence, today))
      case Install(subscription, now, today) =>
        (match Refreshed(s, now, today)
         case Err(error) => Err(error)
         case Ok(renewed) => Installed(s, renewed, subscription))
  }

  function Anchored(s: State, at: Parsed, today: int, migrated: bool): Result<State, Error> {
    if !s.phase.GenesisIncomplete? then Ok(s)
    else if at.None? then Err(InvalidTimestamp)
    else Write(Bumped(s.(phase := TrialActive, genesisAt := Some(at), genesisDate := Some(Some(today)), migrated := migrated)))
  }

  function Recorded(s: State, e: Evidence, today: int): Result<State, Error>
    requires ValidState(s)
  {
    if !ValidEvidence(e) then Err(InvalidEvidence)
    else if e.localDate != Some(today) then Err(DateDiffers)
    else if Duplicate(s.days, e) then Ok(s)
    else
      var days := Insert(e, s.days);
      Write(Bumped(s.(days := days, phase := if |days| >= RequiredSuccessfulDays then TrialQualified else s.phase)))
  }

  function Installed(s: State, renewed: State, subscription: Subscription): Result<State, Error> {
    if !(renewed.phase.TrialQualified? || Pro(renewed.phase)) then Err(NotYetAvailable)
    else if renewed.subscription.Some? && subscription.providerRevision < renewed.subscription.value.providerRevision then
      Err(RevisionBackwards)
    else if renewed.subscription.Some? && subscription.providerRevision == renewed.subscription.value.providerRevision then
      if subscription.receiptDigest == renewed.subscription.value.receiptDigest then Ok(s) else Err(RevisionConflict)
    else
      Write(Bumped(renewed.(phase := if subscription.plan.Monthly? then ProMonthly else ProYearly,
                          subscription := Some(subscription))))
  }

  // ---- The store ----------------------------------------------------------

  /** One file, replaced by rename under one lock. */
  class EntitlementStore {
    var file: State

    constructor ()
      ensures file == Fresh()
    {
      file := Fresh();
    }

    method RefreshPhase(s: State, now: int, today: int) returns (renewed: State, changed: bool, ok: bool)
      ensures ok == Refreshed(s, now, today).Ok?
      ensures ok ==> Refreshed(s, now, today) == Ok(renewed) && changed == (renewed != s)
    {
      renewed, changed, ok := s, false, true;
      if s.phase.TrialActive? {
        if s.genesisDate.None? || s.genesisDate.value.None? {
          ok := false;
        } else if today >= s.genesisDate.value.value + TrialCalendarDays {
          renewed, changed := s.(phase := TrialExpired), true;
        }
      } else if s.phase.ProMonthly? || s.phase.ProYearly? {
        if s.subscription.None? || s.subscription.value.paidThrough.None? {
          ok := false;
        } else if s.subscription.value.paidThrough.value <= now {
          renewed, changed := s.(phase := ProLapsed), true;
        }
      }
    }

    method WriteLocked(next: State) returns (outcome: Result<(), Error>)
      modifies this
      ensures outcome.Ok? <==> ValidState(next)
      ensures outcome.Err? ==> outcome.error == InvalidState
      ensures file == if outcome.Ok? then next else old(file)
    {
      var ok := ValidateState(next);
      if !ok {
        return Err(InvalidState);
      }
      file := next;
      return Ok(());
    }

    method StatusAt(now: int, today: int) returns (outcome: Result<(), Error>)
      modifies this
      ensures outcome.Ok? == Applied(old(file), Status(now, today)).Ok?
      ensures outcome.Err? ==> Applied(old(file), Status(now, today)) == Err(outcome.error)
      ensures file == if outcome.Ok? then Applied(old(file), Status(now, today)).value else old(file)
    {
      var readable := ValidateState(file);
      if !readable {
        return Err(InvalidState);
      }
      var renewed, changed, ok := RefreshPhase(file, now, today);
      if !ok {
        return Err(InvalidState);
      }
      if changed {
        outcome := WriteLocked(Bumped(renewed));
      } else {
        outcome := Ok(());
      }
    }

    /** `complete_genesis_at`, and `migrate_existing_pairing_at` when `migrating`. */
    method AnchorTrial(at: Parsed, today: int, migrating: bool) returns (outcome: Result<(), Error>)
      modifies this
      ensures var op := if migrating then MigratePairing(at, today) else CompleteGenesis(at, today);
        && outcome.Ok? == Applied(old(file), op).Ok?
        && (outcome.Err? ==> Applied(old(file), op) == Err(outcome.error))
        && file == if outcome.Ok? then Applied(old(file), op).value else old(file)
    {
      var readable := ValidateState(file);
      if !readable {
        return Err(InvalidState);
      }
      if !file.phase.GenesisIncomplete? {
        return Ok(());
      }
      if at.None? {
        return Err(InvalidTimestamp);
      }
      var state := file.(phase := TrialActive, genesisAt := Some(at), genesisDate := Some(Some(today)));
      if migrating {
        state := state.(migrated := true);
      }
      outcome := WriteLocked(Bumped(state));
    }

    method RecordSuccessfulDayAt(evidence: Evidence, now: int, today: int) returns (outcome: Result<(), Error>)
      modifies this
      ensures outcome.Ok? == Applied(old(file), RecordDay(evidence, now, today)).Ok?
      ensures outcome.Err? ==> Applied(old(file), RecordDay(evidence, now, today)) == Err(outcome.error)
      ensures file == if outcome.Ok? then Applied(old(file), RecordDay(evidence, now, today)).value else old(file)
    {
      var readable := ValidateState(file);
      if !readable {
        return Err(InvalidState);
      }
      var state, changed, ok := RefreshPhase(file, now, today);
      if !ok {
        return Err(InvalidState);
      }
      if !state.phase.TrialActive? {
        if changed {
          outcome := WriteLocked(Bumped(state));
          return;
        }
        return Ok(());
      }
      if !ValidEvidence(evidence) {
        return Err(InvalidEvidence);
      }
      if evidence.localDate != Some(today) {
        return Err(DateDiffers);
      }
      var duplicate := false;
      for i := 0 to |state.days|
        invariant duplicate <==> exists j :: 0 <= j < i && !Apart(state.days[j], evidence)
      {
        duplicate := duplicate || !Apart(state.days[i], evidence);
      }
      if duplicate {
        return Ok(());
      }
      state := state.(days := Insert(evidence, state.days));
      if |state.days| >= RequiredSuccessfulDays {
        state := state.(phase := TrialQualified);
      }
      outcome := WriteLocked(Bumped(state));
    }

    method InstallVerifiedSubscription(subscription: Subscription, now: int, today: int) returns (outcome: Result<(), Error>)
      modifies this
      ensures outcome.Ok? == Applied(old(file), Install(subscription, now, today)).Ok?
      ensures outcome.Err? ==> Applied(old(file), Install(subscription, now, today)) == Err(outcome.error)
      ensures file == if outcome.Ok? then Applied(old(file), Install(subscription, now, today)).value else old(file)
    {
      if !ValidSubscription(subscription) || subscription.paidThrough.value <= now {
        return Err(InvalidSubscription);
      }
      var readable := ValidateState(file);
      if !readable {
        return Err(InvalidState);
      }
      var state, changed, ok := RefreshPhase(file, now, today);
      if !ok {
        return Err(InvalidState);
      }
      if !(state.phase.TrialQualified? || Pro(state.phase)) {
        return Err(NotYetAvailable);
      }
      if state.subscription.Some? {
        var existing := state.subscription.value;
        if subscription.providerRevision < existing.providerRevision {
          return Err(RevisionBackwards);
        }
        if subscription.providerRevision == existing.providerRevision {
          return if subscription.receiptDigest == existing.receiptDigest then Ok(()) else Err(RevisionConflict);
        }
      }
      state := state.(phase := if subscription.plan.Monthly? then ProMonthly else ProYearly,
                      subscription := Some(subscription));
      outcome := WriteLocked(Bumped(state));
    }
  }

  // ---- The law ------------------------------------------------------------

  function Fresh(): State {
    State(1, GenesisIncomplete, None, None, [], None, false)
  }

  predicate InsideTrial(s: State) {
    forall i :: 0 <= i < |s.days| ==>
      s.genesisDate.Some? && s.genesisDate.value.Some? && Dated(s.days[i])
      && s.days[i].localDate.value < s.genesisDate.value.value + TrialCalendarDays
  }

  /** Five distinct days inside the trial before Pro: stronger than `validate_state`. */
  predicate Law(s: State) {
    && ValidState(s) && Ordered(s.days) && InsideTrial(s)
    && (s.phase.GenesisIncomplete? ==> s.days == [])
    && (s.phase.TrialActive? || s.phase.TrialExpired? ==> |s.days| < RequiredSuccessfulDays)
    && (s.phase.TrialQualified? || Pro(s.phase) ==> |s.days| == RequiredSuccessfulDays)
    && (s.subscription.Some? <==> Pro(s.phase))
  }

  /** What a later state keeps of an earlier one. */
  predicate Keeps(a: State, b: State) {
    && (forall e :: e in a.days ==> e in b.days)
    && (a.phase.TrialExpired? ==> b == a)
    && (!a.phase.GenesisIncomplete? ==>
          !b.phase.GenesisIncomplete? && b.genesisAt == a.genesisAt && b.genesisDate == a.genesisDate)
    && (|a.days| == RequiredSuccessfulDays ==> b.days == a.days)
    && (a.subscription.Some? ==>
          b.subscription.Some? && a.subscription.value.providerRevision <= b.subscription.value.providerRevision)
    && a.revision <= b.revision
  }

  lemma {:induction false} InsertKeepsOrder(e: Evidence, days: seq<Evidence>)
    requires Dated(e) && Ordered(days)
    requires forall i :: 0 <= i < |days| ==> Apart(days[i], e)
    ensures Ordered(Insert(e, days)) && |Insert(e, days)| == |days| + 1
    ensures forall d :: d in Insert(e, days) <==> d == e || d in days
  {
    if days != [] && days[0].localDate.value <= e.localDate.value {
      InsertKeepsOrder(e, days[1..]);
      var rest := Insert(e, days[1..]);
      assert forall d :: d in days <==> d == days[0] || d in days[1..];
      forall i | 0 <= i < |rest| ensures days[0].localDate.value < rest[i].localDate.value {
        assert rest[i] in rest;
      }
    }
  }

  lemma InsertedFits(e: Evidence, days: seq<Evidence>)
    requires ValidEvidence(e) && Ordered(days) && AllApart(days) && !Duplicate(days, e)
    requires forall i :: 0 <= i < |days| ==> ValidEvidence(days[i])
    ensures var all := Insert(e, days);
      Ordered(all) && AllApart(all) && |all| == |days| + 1 && (forall i :: 0 <= i < |all| ==> ValidEvidence(all[i]))
      && forall d :: d in all <==> d == e || d in days
  {
    InsertKeepsOrder(e, days);
    var all := Insert(e, days);
    forall i | 0 <= i < |all| ensures ValidEvidence(all[i]) {
      assert all[i] in all;
    }
    forall i, j | 0 <= i < j < |all| ensures Apart(all[i], all[j]) {
      assert all[i] in all && all[j] in all;
      assert all[i].localDate != all[j].localDate;
    }
  }

  lemma RecordKeepsLaw(s: State, e: Evidence, today: int)
    requires Law(s) && s.phase.TrialActive? && today < s.genesisDate.value.value + TrialCalendarDays
    ensures match Recorded(s, e, today)
            case Ok(next) => Law(next) && Keeps(s, next)
            case Err(error) => error != InvalidState
  {
    if ValidEvidence(e) && e.localDate == Some(today) && !Duplicate(s.days, e) {
      InsertedFits(e, s.days);
      var days := Insert(e, s.days);
      forall i | 0 <= i < |days| ensures days[i].localDate.value < s.genesisDate.value.value + TrialCalendarDays {
        assert days[i] in days;
      }
    }
  }

  lemma RefreshKeepsLaw(s: State, now: int, today: int)
    requires Law(s)
    ensures Refreshed(s, now, today).Ok?
    ensures var renewed := Refreshed(s, now, today).value;
      && Law(renewed) && renewed == s.(phase := renewed.phase)
      && (renewed.phase.TrialActive? ==> renewed == s && today < s.genesisDate.value.value + TrialCalendarDays)
      && (renewed != s ==> !s.phase.TrialExpired?)
  {
  }

  /** Every operation on a lawful state keeps the law, loses nothing and never tries to
      write or read a state that `validate_state` refuses. */
  lemma OperationKeepsLaw(s: State, op: Op)
    requires Law(s)
    ensures match Applied(s, op)
            case Ok(next) => Law(next) && Keeps(s, next)
            case Err(error) => error != InvalidState
  {
    match op
    case Status(now, today) => RefreshKeepsLaw(s, now, today);
    case CompleteGenesis(at, today) =>
    case MigratePairing(at, today) =>
    case RecordDay(evidence, now, today) =>
      RefreshKeepsLaw(s, now, today);
      if Refreshed(s, now, today).value.phase.TrialActive? {
        RecordKeepsLaw(s, evidence, today);
      }
    case Install(subscription, now, today) => InstallKeepsLaw(s, subscription, now, today);
  }

  lemma InstallKeepsLaw(s: State, subscription: Subscription, now: int, today: int)
    requires Law(s)
    ensures match Applied(s, Install(subscription, now, today))
            case Ok(next) => Law(next) && Keeps(s, next)
            case Err(error) => error != InvalidState
  {
    RefreshKeepsLaw(s, now, today);
  }

  /** Asking for the status ends a trial exactly on its seventh day and lapses a paid
      subscription exactly when its paid time is over; otherwise it changes nothing. */
  lemma StatusIsCurrent(s: State, now: int, today: int)
    requires Law(s)
    ensures Applied(s, Status(now, today)).Ok?
    ensures var after := Applied(s, Status(now, today)).value;
      && (after.phase.TrialExpired? <==>
            (s.phase.TrialExpired? || (s.phase.TrialActive? && s.genesisDate.value.value + TrialCalendarDays <= today)))
      && (after.phase.ProLapsed? <==>
            (s.phase.ProLapsed? || (Pro(s.phase) && s.subscription.value.paidThrough.value <= now)))
      && (after == s || (after.phase != s.phase && after == Bumped(s).(phase := after.phase)))
  {
    RefreshKeepsLaw(s, now, today);
    OperationKeepsLaw(s, Status(now, today));
  }

  /** An anchor takes effect exactly on a store that has none and at a time that can be
      written: it stores that very time and day, opens the trial, notes a migration if it
      is one, and leaves everything else as it was. */
  lemma AnchorTakesEffectExactly(s: State, at: Parsed, today: int, migrating: bool)
    requires Law(s)
    ensures var op := if migrating then MigratePairing(at, today) else CompleteGenesis(at, today);
      var after := Next(s, op);
      && (after != s <==> s.phase.GenesisIncomplete? && at.Some?)
      && (Applied(s, op).Err? <==> s.phase.GenesisIncomplete? && at.None?)
      && (after != s ==>
            after == State(NextRevision(s.revision), TrialActive, Some(at), Some(Some(today)), s.days, s.subscription,
                           s.migrated || migrating))
  {
  }

  function NextRevision(revision: nat): nat {
    if revision < 0xFFFF_FFFF_FFFF_FFFF then revision + 1 else revision
  }

  /** Whatever happens after the anchor: a trial anchored on a day is open for that day and
      six more, and is found expired from the seventh day on. */
  lemma TrialLastsSevenDays(s: State, at: Parsed, day: int, migrating: bool, rest: seq<Op>, now: int, today: int)
    requires Law(s) && s.phase.GenesisIncomplete? && at.Some?
    ensures var anchored := Next(s, if migrating then MigratePairing(at, day) else CompleteGenesis(at, day));
      var later := Run(anchored, rest);
      later.phase.TrialActive? ==>
        if day + 7 <= today then Next(later, Status(now, today)).phase.TrialExpired?
        else Next(later, Status(now, today)) == later
  {
    var op := if migrating then MigratePairing(at, day) else CompleteGenesis(at, day);
    AnchorTakesEffectExactly(s, at, day, migrating);
    OperationKeepsLaw(s, op);
    RunKeepsLaw(Next(s, op), rest);
    StatusIsCurrent(Run(Next(s, op), rest), now, today);
  }

  /** A new creation or evolution is allowed exactly inside an open trial that has not its
      five days yet, or while a subscription is paid for; buying, exactly when five days
      are there and none is. */
  lemma AllowedExactly(s: State, now: int, today: int)
    requires Law(s)
    ensures var phase := Next(s, Status(now, today)).phase;
      && (FactoryAllowed(phase) <==>
            || (s.phase.TrialActive? && |s.days| < 5 && today < s.genesisDate.value.value + 7)
            || (s.subscription.Some? && !s.phase.ProLapsed? && now < s.subscription.value.paidThrough.value))
      && (PurchaseAllowed(phase) <==>
            |s.days| == 5 && (s.subscription.Some? ==> s.phase.ProLapsed? || s.subscription.value.paidThrough.value <= now))
  {
    StatusIsCurrent(s, now, today);
  }

  /** Whatever an operation changes, it counts: one revision for the whole change. */
  lemma ChangesAreCounted(s: State, op: Op)
    requires Law(s)
    ensures Next(s, op) != s ==> Next(s, op).revision == NextRevision(s.revision)
  {
    match op
    case Status(now, today) => RefreshKeepsLaw(s, now, today);
    case CompleteGenesis(at, today) =>
    case MigratePairing(at, today) =>
    case RecordDay(evidence, now, today) =>
      RefreshKeepsLaw(s, now, today);
      RecordLeavesExactly(s, evidence, now, today);
    case Install(subscription, now, today) => InstallTakesEffectExactly(s, subscription, now, today);
  }

  /** What recording a day leaves besides: it ends a trial like a status query does, and
      in an open trial it touches the days and the phase alone, or nothing. */
  lemma RecordLeavesExactly(s: State, e: Evidence, now: int, today: int)
    requires Law(s)
    ensures var after := Next(s, RecordDay(e, now, today));
      if s.phase.TrialActive? && today < s.genesisDate.value.value + 7 then
        if Counts(s, e, today)
        then after == s.(days := after.days, revision := NextRevision(s.revision),
                         phase := if |s.days| == 4 then TrialQualified else TrialActive)
        else after == s
      else after == Next(s, Status(now, today))
  {
    RefreshKeepsLaw(s, now, today);
    RecordAddsExactly(s, e, now, today);
    if s.phase.TrialActive? && today < s.genesisDate.value.value + 7 {
      RecordKeepsLaw(s, e, today);
    }
  }

  /** Which error a refused day or installation gives; every other one succeeds. */
  lemma RefusedExactly(s: State, e: Evidence, subscription: Subscription, now: int, today: int)
    requires Law(s)
    ensures var recorded := Applied(s, RecordDay(e, now, today));
      var open := s.phase.TrialActive? && today < s.genesisDate.value.value + 7;
      && (recorded == Err(InvalidEvidence) <==> open && !ValidEvidence(e))
      && (recorded == Err(DateDiffers) <==> open && ValidEvidence(e) && e.localDate != Some(today))
      && (recorded.Err? ==> recorded.error in {InvalidEvidence, DateDiffers})
    ensures var installed := Applied(s, Install(subscription, now, today));
      var held := if s.subscription.Some? then s.subscription.value.providerRevision else 0;
      && (installed == Err(InvalidSubscription) <==> !Current(subscription, now))
      && (installed == Err(NotYetAvailable) <==> Current(subscription, now) && |s.days| < 5)
      && (installed == Err(RevisionBackwards) <==>
            Current(subscription, now) && |s.days| == 5 && subscription.providerRevision < held)
      && (installed == Err(RevisionConflict) <==>
            && Current(subscription, now) && |s.days| == 5 && subscription.providerRevision == held
            && subscription.receiptDigest != s.subscription.value.receiptDigest)
      && (installed.Err? ==> installed.error in {InvalidSubscription, NotYetAvailable, RevisionBackwards, RevisionConflict})
  {
    RefreshKeepsLaw(s, now, today);
    InstallKeepsLaw(s, subscription, now, today);
    OperationKeepsLaw(s, RecordDay(e, now, today));
  }

  /** When a recorded day counts. */
  predicate Counts(s: State, e: Evidence, today: int) {
    && s.phase.TrialActive? && s.genesisDate.Some? && s.genesisDate.value.Some?
    && today < s.genesisDate.value.value + TrialCalendarDays
    && ValidEvidence(e) && e.localDate == Some(today) && !Duplicate(s.days, e)
  }

  /** A day is added exactly when it counts, it is the only one added, and the fifth one
      qualifies at once. */
  lemma RecordAddsExactly(s: State, e: Evidence, now: int, today: int)
    requires Law(s)
    ensures var after := Next(s, RecordDay(e, now, today));
      && (forall d :: d in after.days <==> d in s.days || (d == e && Counts(s, e, today)))
      && |after.days| == |s.days| + (if Counts(s, e, today) then 1 else 0)
      && (Counts(s, e, today) ==> (after.phase.TrialQualified? <==> |s.days| == RequiredSuccessfulDays - 1))
  {
    RefreshKeepsLaw(s, now, today);
    var renewed := Refreshed(s, now, today).value;
    if renewed.phase.TrialActive? {
      RecordKeepsLaw(s, e, today);
      if Counts(s, e, today) {
        InsertedFits(e, s.days);
      }
    } else {
      OperationKeepsLaw(s, RecordDay(e, now, today));
    }
  }

  /** When a verified subscription is due: a current receipt, five days, and a newer
      provider revision than any installed. */
  predicate Due(s: State, subscription: Subscription, now: int) {
    && Current(subscription, now) && |s.days| == RequiredSuccessfulDays
    && (s.subscription.Some? ==> s.subscription.value.providerRevision < subscription.providerRevision)
  }

  /** Installing changes the state exactly when the subscription is due, and then to the
      phase of its plan, with every day kept. */
  lemma InstallTakesEffectExactly(s: State, subscription: Subscription, now: int, today: int)
    requires Law(s)
    ensures var after := Next(s, Install(subscription, now, today));
      && (after != s <==> Due(s, subscription, now))
      && (after != s ==>
            after == Bumped(s).(phase := if subscription.plan.Monthly? then ProMonthly else ProYearly,
                                subscription := Some(subscription)))
  {
    RefreshKeepsLaw(s, now, today);
    InstallKeepsLaw(s, subscription, now, today);
  }

  function Next(s: State, op: Op): State {
    match Applied(s, op)
    case Ok(next) => next
    case Err(_) => s
  }

  function Run(s: State, ops: seq<Op>): State
    decreases |ops|
  {
    if ops == [] then s else Run(Next(s, ops[0]), ops[1..])
  }

  lemma {:induction false} RunKeepsLaw(s: State, ops: seq<Op>)
    requires Law(s)
    ensures Law(Run(s, ops)) && Keeps(s, Run(s, ops))
    decreases |ops|
  {
    if ops != [] {
      OperationKeepsLaw(s, ops[0]);
      RunKeepsLaw(Next(s, ops[0]), ops[1..]);
    }
  }

  /** On every run from a new store, split anywhere: qualified, Pro and lapsed states hold
      exactly five days, in strict date order, apart in all four keys and before the trial's
      end; other states hold fewer; an expired trial never changes; nothing is lost. */
  lemma EveryRunIsLawful(before: seq<Op>, rest: seq<Op>)
    ensures var middle := Run(Fresh(), before); var end := Run(middle, rest);
      && Law(middle) && Law(end) && Keeps(middle, end)
      && (forall e :: e in end.days ==>
            && e.localDate.Some? && e.acceptedAt.Some?
            && ValidId(e.command, true) && ValidId(e.execution, true) && ValidId(e.version, true))
      && (end.subscription.Some? ==>
            var held := end.subscription.value;
            && ValidId(held.id, false) && ValidDigest(held.receiptDigest) && 0 < held.providerRevision
            && held.issuedAt.Some? && held.paidThrough.Some? && held.issuedAt.value < held.paidThrough.value)
      && |end.days| <= 5 && (end.phase.TrialQualified? || Pro(end.phase) <==> |end.days| == 5)
  {
    RunKeepsLaw(Fresh(), before);
    RunKeepsLaw(Run(Fresh(), before), rest);
  }

  /** The law is not what `validate_state` checks: it accepts a Pro state that never had a
      successful day. */
  lemma ValidationIsWeaker() returns (s: State)
    ensures ValidState(s) && !Law(s) && Pro(s.phase) && s.days == []
  {
    var digest := seq(64, i => '0');
    s := State(1, ProYearly, Some(Some(0)), Some(Some(0)), [],
               Some(Subscription("x", Yearly, Some(0), Some(1), false, 1, digest)), false);
  }
}
