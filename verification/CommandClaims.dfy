/** The per-command mutexes of one service process: a map that holds them weakly and
    drops dead entries once it has reached its limit. */
module CommandClaims {
  import opened Wrappers

  const EvictionLimit: nat := 1_024

  /** What one look into the map leaves: the entries and the number of the next mutex. */
  datatype Claims = Claims(entries: map<string, nat>, next: nat)

  /** The entries after eviction, which spares every mutex that somebody still owns. */
  function Retained(entries: map<string, nat>, owned: set<nat>): map<string, nat> {
    if |entries| >= EvictionLimit then map id | id in entries && entries[id] in owned :: entries[id] else entries
  }

  /** A weak entry can be upgraded exactly while somebody owns its mutex. */
  function Resolved(claims: Claims, owned: set<nat>, id: string): (Claims, nat) {
    var entries := Retained(claims.entries, owned);
    if id in entries && entries[id] in owned then (Claims(entries, claims.next), entries[id])
    else (Claims(entries[id := claims.next], claims.next + 1), claims.next)
  }

  /** Below 1,024 entries a look-up touches no other command's; from there on it leaves,
      besides its own, exactly the ones whose mutex is still owned. */
  lemma EvictsAtLimit(claims: Claims, owned: set<nat>, id: string, other: string)
    requires other != id
    ensures var after := Resolved(claims, owned, id).0.entries;
      && (other in after <==> other in claims.entries && (|claims.entries| < 1024 || claims.entries[other] in owned))
      && (other in after ==> after[other] == claims.entries[other])
    ensures id in Resolved(claims, owned, id).0.entries
    ensures Resolved(claims, owned, id).0.entries[id] == Resolved(claims, owned, id).1
  {
  }

  class ClaimMap {
    var entries: map<string, nat>
    var next: nat

    function View(): Claims
      reads this
    {
      Claims(entries, next)
    }

    constructor ()
      ensures View() == Claims(map[], 0)
    {
      entries, next := map[], 0;
    }

    /** `claim_command` up to the await: `owned` are the mutexes with a strong count. */
    method Resolve(id: string, owned: set<nat>) returns (mutex: nat)
      modifies this
      ensures (View(), mutex) == Resolved(old(View()), owned, id)
    {
      if |entries| >= EvictionLimit {
        entries := map other | other in entries && entries[other] in owned :: entries[other];
      }
      if id in entries && entries[id] in owned {
        mutex := entries[id];
      } else {
        mutex := next;
        next := next + 1;
        entries := entries[id := mutex];
      }
    }
  }

  // ---- Processors of commands ---------------------------------------------

  /** A processor owns its mutex from the look-up until it is done or dropped. */
  datatype Processor =
    | Arrived(id: string)
    | Queued(id: string, mutex: nat)
    | Claiming(id: string, mutex: nat)

  datatype State = State(processors: map<nat, Processor>, claims: Claims)

  datatype Step =
    | Arrive(p: nat, id: string)
    | LookUp(p: nat)
    | Lock(p: nat)
    | Leave(p: nat)

  function Owned(processors: map<nat, Processor>): set<nat> {
    set p | p in processors && !processors[p].Arrived? :: processors[p].mutex
  }

  predicate Locked(processors: map<nat, Processor>, mutex: nat) {
    exists p :: p in processors && processors[p].Claiming? && processors[p].mutex == mutex
  }

  predicate Enabled(s: State, step: Step) {
    match step
    case Arrive(p, _) => p !in s.processors
    case LookUp(p) => p in s.processors && s.processors[p].Arrived?
    case Lock(p) => p in s.processors && s.processors[p].Queued? && !Locked(s.processors, s.processors[p].mutex)
    case Leave(p) => p in s.processors
  }

  function After(s: State, step: Step): State
    requires Enabled(s, step)
  {
    match step
    case Arrive(p, id) => s.(processors := s.processors[p := Arrived(id)])
    case LookUp(p) =>
      var id := s.processors[p].id;
      var (claims, mutex) := Resolved(s.claims, Owned(s.processors), id);
      State(s.processors[p := Queued(id, mutex)], claims)
    case Lock(p) =>
      s.(processors := s.processors[p := Claiming(s.processors[p].id, s.processors[p].mutex)])
    case Leave(p) => s.(processors := s.processors - {p})
  }

  predicate Legal(s: State, steps: seq<Step>)
    decreases |steps|
  {
    steps != [] ==> Enabled(s, steps[0]) && Legal(After(s, steps[0]), steps[1..])
  }

  function Run(s: State, steps: seq<Step>): State
    requires Legal(s, steps)
    decreases |steps|
  {
    if steps == [] then s else Run(After(s, steps[0]), steps[1..])
  }

  /** Every owned mutex is the one its command's entry names, and no two entries name
      the same mutex. */
  ghost predicate ClaimsInvariant(s: State) {
    && (forall p :: p in s.processors && !s.processors[p].Arrived? ==>
          && s.processors[p].id in s.claims.entries
          && s.claims.entries[s.processors[p].id] == s.processors[p].mutex)
    && (forall id :: id in s.claims.entries ==> s.claims.entries[id] < s.claims.next)
    && (forall id, other ::
          id in s.claims.entries && other in s.claims.entries && id != other ==>
            s.claims.entries[id] != s.claims.entries[other])
    && (forall p, q ::
          p in s.processors && q in s.processors && s.processors[p].Claiming? && s.processors[q].Claiming? && p != q ==>
            s.processors[p].mutex != s.processors[q].mutex)
  }

  lemma ClaimsStep(s: State, step: Step)
    requires ClaimsInvariant(s) && Enabled(s, step)
    ensures ClaimsInvariant(After(s, step))
  {
    assert step.LookUp? ==> forall p :: p in s.processors && !s.processors[p].Arrived? ==>
      s.processors[p].mutex in Owned(s.processors);
  }

  lemma {:induction false} ClaimsRun(s: State, steps: seq<Step>)
    requires ClaimsInvariant(s) && Legal(s, steps)
    ensures ClaimsInvariant(Run(s, steps))
    decreases |steps|
  {
    if steps != [] {
      ClaimsStep(s, steps[0]);
      ClaimsRun(After(s, steps[0]), steps[1..]);
    }
  }

  /** Two processors that overlap after their look-ups share a mutex exactly when they
      process the same command, however often the map was thinned out in between; so at
      most one of them is inside its claim. */
  lemma OverlappingProcessorsShareOneMutex(steps: seq<Step>, p: nat, q: nat)
    requires Legal(State(map[], Claims(map[], 0)), steps)
    requires p in Run(State(map[], Claims(map[], 0)), steps).processors
    requires q in Run(State(map[], Claims(map[], 0)), steps).processors
    ensures var processors := Run(State(map[], Claims(map[], 0)), steps).processors;
      !processors[p].Arrived? && !processors[q].Arrived? ==>
        && (processors[p].id == processors[q].id <==> processors[p].mutex == processors[q].mutex)
        && (processors[p].id == processors[q].id && processors[p].Claiming? && processors[q].Claiming? ==> p == q)
  {
    ClaimsRun(State(map[], Claims(map[], 0)), steps);
  }
}
