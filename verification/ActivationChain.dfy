/** Hash-linked activations: what a chain of accepted successors looks like, and how much
    of the history its head determines. */
module ActivationChain {
  import opened Wrappers
  import opened Unicode
  import opened CanonicalJson
  import opened CanonicalBytes

  /** The member names the chain is read through: of a contract activation,
      `activation_sequence`, `previous_activation`, `activation_block`, `block_number`,
      `issued_at` and `activation`, in a wrapper of `schema`, `activation`, `approvals`. */
  datatype Names = Names(
    sequence: Text,
    previous: Text,
    block: Text,
    blockNumber: Text,
    issuedAt: Text,
    activation: Text,
    wrapper: set<Text>)

  /** `hash` writes the digest of some bytes as `0x` and lower-case hex, `domain` comes in
      front of what is hashed; `time` reads a canonical timestamp; `digestText` says what
      is a nonzero 32-byte hex value; `shaped` stands for the other checks of
      `validate_activation_shape`. No result depends on how the members are named. */
  datatype Rules = Rules(
    names: Names,
    domain: seq<Byte>,
    hash: seq<Byte> -> Text,
    time: Text -> Option<nat>,
    digestText: Text -> bool,
    shaped: Value -> bool)

  // ---- Fields -------------------------------------------------------------

  function Field(v: Value, name: Text): Option<Value> {
    if v.Obj? && name in Keys(v.members) then Some(Lookup(v.members, name)) else None
  }

  function PositiveNumber(field: Option<Value>): Option<nat> {
    match field
    case Some(Num(n)) => if 1 <= n <= MaxSafeInteger then Some(n) else None
    case _ => None
  }

  function Sequence(rules: Rules, v: Value): Option<nat> {
    PositiveNumber(Field(v, rules.names.sequence))
  }

  function Previous(rules: Rules, v: Value): Option<Value> {
    Field(v, rules.names.previous)
  }

  function Block(rules: Rules, v: Value): Option<nat> {
    match Field(v, rules.names.block)
    case Some(block) => PositiveNumber(Field(block, rules.names.blockNumber))
    case None => None
  }

  function IssuedAt(rules: Rules, v: Value): Option<nat> {
    match Field(v, rules.names.issuedAt)
    case Some(Str(text)) => rules.time(text)
    case _ => None
  }

  /** What `validate_activation_shape` accepts, in the JSON domain. */
  predicate Shaped(rules: Rules, v: Value) {
    && Domain(v) && rules.shaped(v)
    && Sequence(rules, v).Some? && Block(rules, v).Some? && IssuedAt(rules, v).Some?
    && match Previous(rules, v)
       case Some(Null) => Sequence(rules, v).value == 1
       case Some(Str(text)) => Sequence(rules, v).value != 1 && rules.digestText(text)
       case _ => false
  }

  /** Numbers count from one and are exact doubles; the first activation is the one without
      a predecessor. */
  lemma ShapedExactly(rules: Rules, v: Value, n: nat)
    ensures PositiveNumber(Some(Num(n))) == (if 0 < n < 0x20_0000_0000_0000 then Some(n) else None)
    ensures Domain(v) && rules.shaped(v) && Sequence(rules, v).Some? && Block(rules, v).Some? && IssuedAt(rules, v).Some? ==>
      && (Previous(rules, v) == Some(Null) ==> (Shaped(rules, v) <==> Sequence(rules, v) == Some(1)))
      && (Previous(rules, v).Some? && Previous(rules, v).value.Str? ==>
            (Shaped(rules, v) <==> Sequence(rules, v) != Some(1) && rules.digestText(Previous(rules, v).value.text)))
  {
  }

  /** The signing digest of an activation. */
  function Digest(rules: Rules, v: Value): Text
    requires Domain(v)
  {
    rules.hash(Preimage(rules.domain, v))
  }

  // ---- Successors ---------------------------------------------------------

  /** The activation in a file, which may be a whole signed envelope. */
  function Unwrapped(rules: Rules, file: Value): Value {
    if file.Obj? && Keys(file.members) == rules.names.wrapper && rules.names.activation in rules.names.wrapper
    then Lookup(file.members, rules.names.activation) else file
  }

  /** What `validate_successor` accepts for an activation that is shaped already. */
  predicate ValidSuccessor(rules: Rules, current: Value, file: Option<Value>)
    requires Shaped(rules, current)
  {
    if Sequence(rules, current).value == 1 then file.None?
    else
      && file.Some?
      && var previous := Unwrapped(rules, file.value);
      && Shaped(rules, previous)
      && Previous(rules, current) == Some(Str(Digest(rules, previous)))
      && Sequence(rules, current).value == Sequence(rules, previous).value + 1
      && Block(rules, current).value > Block(rules, previous).value
      && IssuedAt(rules, current).value >= IssuedAt(rules, previous).value
  }

  /** Each activation was accepted beside a file of the one before it, the first beside none. */
  ghost predicate Chain(rules: Rules, chain: seq<Value>) {
    && (forall i :: 0 <= i < |chain| ==> Shaped(rules, chain[i]))
    && (chain != [] ==> ValidSuccessor(rules, chain[0], None))
    && (forall i :: 0 < i < |chain| ==> Follows(rules, chain[i], chain[i - 1]))
  }

  ghost predicate Follows(rules: Rules, current: Value, previous: Value)
    requires Shaped(rules, current)
  {
    exists file: Value :: Unwrapped(rules, file) == previous && ValidSuccessor(rules, current, Some(file))
  }

  // ---- The laws of a chain ------------------------------------------------

  /** Position i carries sequence i, counted from one. */
  lemma {:induction false} SequenceIsPosition(rules: Rules, chain: seq<Value>, i: nat)
    requires Chain(rules, chain) && i < |chain|
    ensures Sequence(rules, chain[i]).value == i + 1
  {
    if i > 0 {
      SequenceIsPosition(rules, chain, i - 1);
      assert Follows(rules, chain[i], chain[i - 1]);
    }
  }

  /** Blocks strictly increase and issue times never decrease, between any two positions. */
  lemma {:induction false} ChainAdvances(rules: Rules, chain: seq<Value>, i: nat, j: nat)
    requires Chain(rules, chain) && i < j < |chain|
    ensures Block(rules, chain[i]).value < Block(rules, chain[j]).value
    ensures IssuedAt(rules, chain[i]).value <= IssuedAt(rules, chain[j]).value
    decreases j
  {
    assert Follows(rules, chain[j], chain[j - 1]);
    if i < j - 1 {
      ChainAdvances(rules, chain, i, j - 1);
    }
  }

  /** No two different byte strings have the same digest text, and the domain is one. */
  ghost predicate CollisionFree(rules: Rules) {
    DomainTag(rules.domain) && forall a, b :: rules.hash(a) == rules.hash(b) ==> a == b
  }

  lemma {:induction false} EqualMember(members: List<Entry<Value>>, others: List<Entry<Value>>, name: Text)
    requires EqualMembers(members, others) && name in Keys(members)
    ensures name in Keys(others) && Equal(Lookup(members, name), Lookup(others, name))
  {
    if members.head.key != name {
      EqualMember(members.tail, others, name);
    }
  }

  /** Equal activations name the same predecessor and have the same sequence. */
  lemma EqualFields(rules: Rules, v: Value, w: Value)
    requires Equal(v, w) && Sequence(rules, v).Some? && Previous(rules, v).Some?
    ensures Sequence(rules, v) == Sequence(rules, w)
    ensures Previous(rules, w).Some? && Equal(Previous(rules, v).value, Previous(rules, w).value)
  {
    EqualMember(v.members, w.members, rules.names.sequence);
    EqualMember(v.members, w.members, rules.names.previous);
  }

  /** Two predecessors of equal activations are equal. */
  lemma EqualPredecessors(rules: Rules, v: Value, w: Value, before: Value, other: Value)
    requires CollisionFree(rules) && Shaped(rules, v) && Shaped(rules, w) && Equal(v, w)
    requires Follows(rules, v, before) && Follows(rules, w, other)
    ensures Equal(before, other)
  {
    EqualFields(rules, v, w);
    DigestsDetermine(rules, before, other);
  }

  lemma DigestsDetermine(rules: Rules, v: Value, w: Value)
    requires CollisionFree(rules) && Domain(v) && Domain(w) && Digest(rules, v) == Digest(rules, w)
    ensures Equal(v, w)
  {
    PreimagesDetermineKindAndValue(rules.domain, v, rules.domain, w);
  }

  lemma EqualStep(rules: Rules, chain: seq<Value>, other: seq<Value>, k: nat)
    requires CollisionFree(rules) && Chain(rules, chain) && Chain(rules, other)
    requires 0 < k < |chain| && k < |other| && Equal(chain[k], other[k])
    ensures Equal(chain[k - 1], other[k - 1])
  {
    assert Follows(rules, chain[k], chain[k - 1]);
    assert Follows(rules, other[k], other[k - 1]);
    EqualPredecessors(rules, chain[k], other[k], chain[k - 1], other[k - 1]);
  }

  /** Equality at one position carries over to the one before. */
  ghost predicate EqualBackwards(chain: seq<Value>, other: seq<Value>) {
    |chain| == |other| && forall k :: 0 < k < |chain| && Equal(chain[k], other[k]) ==> Equal(chain[k - 1], other[k - 1])
  }

  lemma {:induction false} EqualBefore(chain: seq<Value>, other: seq<Value>, i: nat, k: nat)
    requires EqualBackwards(chain, other) && i <= k < |chain| && Equal(chain[k], other[k])
    ensures Equal(chain[i], other[i])
    decreases k
  {
    if i < k {
      EqualBefore(chain, other, i, k - 1);
    }
  }

  /** Two chains with equal heads are the same history: equal at every position. */
  lemma HeadDeterminesHistory(rules: Rules, chain: seq<Value>, other: seq<Value>)
    requires CollisionFree(rules) && Chain(rules, chain) && Chain(rules, other)
    requires chain != [] && other != [] && Equal(chain[|chain| - 1], other[|other| - 1])
    ensures |chain| == |other|
    ensures forall i :: 0 <= i < |chain| ==> Equal(chain[i], other[i])
  {
    SequenceIsPosition(rules, chain, |chain| - 1);
    SequenceIsPosition(rules, other, |other| - 1);
    EqualFields(rules, chain[|chain| - 1], other[|other| - 1]);
    forall k | 0 < k < |chain| && Equal(chain[k], other[k]) ensures Equal(chain[k - 1], other[k - 1]) {
      EqualStep(rules, chain, other, k);
    }
    forall i | 0 <= i < |chain| ensures Equal(chain[i], other[i]) {
      EqualBefore(chain, other, i, |chain| - 1);
    }
  }

  // ---- Growing a chain ----------------------------------------------------

  /** An activation is not taken for an envelope: it has a sequence, the wrapper has none. */
  lemma ActivationIsNotWrapped(rules: Rules, v: Value)
    requires rules.names.sequence !in rules.names.wrapper && Shaped(rules, v)
    ensures Unwrapped(rules, v) == v
  {
  }

  /** The signed envelope of the predecessor does as well as the predecessor itself. */
  lemma EnvelopeStandsForItsActivation(rules: Rules, current: Value, previous: Value, envelope: Value)
    requires rules.names.sequence !in rules.names.wrapper && Shaped(rules, current) && Shaped(rules, previous)
    requires envelope.Obj? && Keys(envelope.members) == rules.names.wrapper && rules.names.activation in rules.names.wrapper
    requires Lookup(envelope.members, rules.names.activation) == previous
    ensures ValidSuccessor(rules, current, Some(envelope)) <==> ValidSuccessor(rules, current, Some(previous))
    ensures ValidSuccessor(rules, current, Some(envelope)) ==> Follows(rules, current, previous)
  {
    ActivationIsNotWrapped(rules, previous);
  }

  lemma ChainSnoc(rules: Rules, chain: seq<Value>, next: Value)
    requires Chain(rules, chain) && chain != [] && Shaped(rules, next)
    ensures Chain(rules, chain + [next]) <==> Follows(rules, next, chain[|chain| - 1])
  {
    var longer := chain + [next];
    assert longer[0] == chain[0] && longer[|chain|] == next;
    if Chain(rules, longer) {
      assert Follows(rules, longer[|chain|], longer[|chain| - 1]);
    } else {
      assert forall i :: 0 < i < |chain| ==> Follows(rules, longer[i], longer[i - 1]);
    }
  }

  lemma FollowsExactly(rules: Rules, next: Value, head: Value)
    requires rules.names.sequence !in rules.names.wrapper && Shaped(rules, next) && Shaped(rules, head)
    ensures Follows(rules, next, head) <==>
      && Previous(rules, next) == Some(Str(Digest(rules, head)))
      && Sequence(rules, next).value == Sequence(rules, head).value + 1
      && Block(rules, next).value > Block(rules, head).value
      && IssuedAt(rules, next).value >= IssuedAt(rules, head).value
  {
    ActivationIsNotWrapped(rules, head);
    if Sequence(rules, next).value == Sequence(rules, head).value + 1 {
      assert ValidSuccessor(rules, next, Some(head)) ==> Follows(rules, next, head);
    }
  }

  /** Later than every activation of the chain. */
  ghost predicate Latest(rules: Rules, chain: seq<Value>, next: Value)
    requires Chain(rules, chain) && Shaped(rules, next)
  {
    forall i :: 0 <= i < |chain| ==>
      && Block(rules, next).value > Block(rules, chain[i]).value
      && IssuedAt(rules, next).value >= IssuedAt(rules, chain[i]).value
  }

  lemma LatestAfterHead(rules: Rules, chain: seq<Value>, next: Value)
    requires Chain(rules, chain) && chain != [] && Shaped(rules, next)
    ensures Latest(rules, chain, next) <==>
      && Block(rules, next).value > Block(rules, chain[|chain| - 1]).value
      && IssuedAt(rules, next).value >= IssuedAt(rules, chain[|chain| - 1]).value
  {
    forall i | 0 <= i < |chain| - 1
      ensures Block(rules, chain[i]).value < Block(rules, chain[|chain| - 1]).value
      ensures IssuedAt(rules, chain[i]).value <= IssuedAt(rules, chain[|chain| - 1]).value
    {
      ChainAdvances(rules, chain, i, |chain| - 1);
    }
  }

  /** A chain can be continued by exactly the activations that name its head's digest, have
      the next number, and are of a later block than all of it and issued before none. */
  lemma ChainGrowsExactly(rules: Rules, chain: seq<Value>, next: Value)
    requires rules.names.sequence !in rules.names.wrapper
    requires Chain(rules, chain) && chain != [] && Shaped(rules, next)
    ensures Chain(rules, chain + [next]) <==>
      && Previous(rules, next) == Some(Str(Digest(rules, chain[|chain| - 1])))
      && Sequence(rules, next).value == |chain| + 1
      && Latest(rules, chain, next)
  {
    var head := chain[|chain| - 1];
    SequenceIsPosition(rules, chain, |chain| - 1);
    ChainSnoc(rules, chain, next);
    FollowsExactly(rules, next, head);
    LatestAfterHead(rules, chain, next);
  }

  /** A first activation stands alone: number one, no predecessor. */
  lemma ChainBeginsExactly(rules: Rules, first: Value)
    requires Shaped(rules, first)
    ensures Chain(rules, [first]) <==> Sequence(rules, first) == Some(1)
    ensures Chain(rules, [first]) ==> Previous(rules, first) == Some(Null)
  {
    assert [first][0] == first;
  }
}
