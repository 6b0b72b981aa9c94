/** Custodian approvals of one activation: signed, assembled in any order, and verified
    independently. Hashing and P-256 verification are parameters. */
module ActivationApprovals {
  import opened Wrappers
  import opened DerSignature

  const HalfOrder: nat := P256Order / 2

  datatype Key = Key(x: nat, y: nat)

  /** `derive` is the key-ID hash of a public key, `valid` the curve check. */
  datatype Crypto = Crypto(
    derive: Key -> nat,
    valid: Key -> bool,
    verifies: (Key, nat, nat, nat) -> bool)

  /** Key IDs are 32 bytes, whose order is that of the numbers they denote. */
  datatype Authority = Authority(keyId: nat, key: Key)

  datatype Policy = Policy(threshold: nat, authorities: seq<Authority>)

  /** `governed`, `p256` and `lowS` are the declarations an approval file makes: its
      schema, its algorithm and its low-s flag. */
  datatype Approval = Approval(governed: bool, keyId: nat, p256: bool, lowS: bool, digest: nat, r: nat, s: nat)

  // ---- Policies -----------------------------------------------------------

  predicate Ascending(authorities: seq<Authority>) {
    forall i, j :: 0 <= i < j < |authorities| ==> authorities[i].keyId < authorities[j].keyId
  }

  /** A key ID derived from a key on the curve. */
  predicate SoundAuthority(crypto: Crypto, authority: Authority) {
    authority.keyId != 0 && crypto.derive(authority.key) == authority.keyId && crypto.valid(authority.key)
  }

  /** What `validate_policy` accepts. */
  predicate ValidPolicy(crypto: Crypto, policy: Policy) {
    && 1 < policy.threshold <= |policy.authorities| <= 32
    && Ascending(policy.authorities)
    && forall i :: 0 <= i < |policy.authorities| ==> SoundAuthority(crypto, policy.authorities[i])
  }

  /** The dictionary built from the policy: a later entry replaces an earlier one. */
  function Keys(authorities: seq<Authority>): map<nat, Key> {
    if authorities == [] then map[]
    else
      var last := authorities[|authorities| - 1];
      Keys(authorities[..|authorities| - 1])[last.keyId := last.key]
  }

  /** `validate_policy`: the loop over authorities with its previous key ID. */
  method ValidatePolicy(crypto: Crypto, policy: Policy) returns (keys: Option<map<nat, Key>>)
    ensures keys.Some? <==> ValidPolicy(crypto, policy)
    ensures keys.Some? ==> keys.value == Keys(policy.authorities)
  {
    if policy.threshold <= 1 || !(1 <= |policy.authorities| <= 32) || policy.threshold > |policy.authorities| {
      return None;
    }
    var previous: Option<nat> := None;
    var result: map<nat, Key> := map[];
    for i := 0 to |policy.authorities|
      invariant result == Keys(policy.authorities[..i])
      invariant previous == if i == 0 then None else Some(policy.authorities[i - 1].keyId)
      invariant Ascending(policy.authorities[..i])
      invariant forall j :: 0 <= j < i ==> SoundAuthority(crypto, policy.authorities[j])
    {
      var authority := policy.authorities[i];
      if !SoundAuthority(crypto, authority) {
        return None;
      }
      if previous.Some? && previous.value >= authority.keyId {
        assert policy.authorities[i - 1].keyId >= policy.authorities[i].keyId;
        return None;
      }
      previous := Some(authority.keyId);
      result := result[authority.keyId := authority.key];
      assert policy.authorities[..i + 1][..i] == policy.authorities[..i];
    }
    assert policy.authorities[..|policy.authorities|] == policy.authorities;
    return Some(result);
  }

  lemma {:induction false} KeysAreAuthorities(authorities: seq<Authority>)
    requires Ascending(authorities)
    ensures |Keys(authorities)| == |authorities|
    ensures forall id :: id in Keys(authorities) ==> exists i :: 0 <= i < |authorities| && authorities[i].keyId == id
  {
    if authorities != [] {
      var front, last := authorities[..|authorities| - 1], authorities[|authorities| - 1];
      KeysAreAuthorities(front);
      assert last.keyId !in Keys(front);
      assert Keys(authorities).Keys == Keys(front).Keys + {last.keyId};
    }
  }

  lemma {:induction false} KeyOf(authorities: seq<Authority>, i: nat)
    requires Ascending(authorities) && i < |authorities|
    ensures authorities[i].keyId in Keys(authorities) && Keys(authorities)[authorities[i].keyId] == authorities[i].key
  {
    if i < |authorities| - 1 {
      KeyOf(authorities[..|authorities| - 1], i);
    }
  }

  predicate Authorized(policy: Policy, key: Key) {
    exists j :: 0 <= j < |policy.authorities| && policy.authorities[j].key == key
  }

  /** Under a valid policy a key ID looks up the one key it derives from. */
  lemma AuthorizedKeys(crypto: Crypto, policy: Policy, key: Key)
    requires ValidPolicy(crypto, policy) && Authorized(policy, key)
    ensures var id := crypto.derive(key); id in Keys(policy.authorities) && Keys(policy.authorities)[id] == key
  {
    var j :| 0 <= j < |policy.authorities| && policy.authorities[j].key == key;
    KeyOf(policy.authorities, j);
  }

  // ---- One approval -------------------------------------------------------

  predicate InScalarDomain(r: nat, s: nat) {
    0 < r < P256Order && 0 < s <= HalfOrder
  }

  /** Both scalars lie between one and the order, and s in its lower half, bounds included. */
  lemma ScalarDomainExactly(r: nat, s: nat)
    ensures InScalarDomain(r, s) <==> 1 <= r && r + 1 <= P256Order && 1 <= s && 2 * s <= P256Order
  {
  }

  /** The checks the assembler and the verifier share. */
  predicate Approves(crypto: Crypto, keys: map<nat, Key>, digest: nat, a: Approval) {
    && a.keyId in keys && a.p256 && a.lowS && a.digest == digest && InScalarDomain(a.r, a.s)
    && crypto.verifies(keys[a.keyId], digest, a.r, a.s)
  }

  /** The signer: reads the tool's signature, lowers `s`, and verifies before writing. */
  function Signed(crypto: Crypto, key: Key, digest: nat, der: seq<Byte>): Option<Approval> {
    match Parsed(der)
    case None => None
    case Some((r, raw)) =>
      var s := LowS(raw);
      if s >= 0 && InScalarDomain(r, s) && crypto.verifies(key, digest, r, s)
      then Some(Approval(true, crypto.derive(key), true, true, digest, r, s)) else None
  }

  // ---- The assembler ------------------------------------------------------

  predicate Sorted(approvals: seq<Approval>) {
    forall i, j :: 0 <= i < j < |approvals| ==> approvals[i].keyId <= approvals[j].keyId
  }

  predicate StrictlySorted(approvals: seq<Approval>) {
    forall i, j :: 0 <= i < j < |approvals| ==> approvals[i].keyId < approvals[j].keyId
  }

  function Insert(a: Approval, approvals: seq<Approval>): seq<Approval> {
    if approvals == [] || a.keyId <= approvals[0].keyId then [a] + approvals
    else [approvals[0]] + Insert(a, approvals[1..])
  }

  /** Sorting by key ID, equal ones in their original order. */
  function Sort(approvals: seq<Approval>): seq<Approval> {
    if approvals == [] then [] else Insert(approvals[0], Sort(approvals[1..]))
  }

  predicate Distinct(approvals: seq<Approval>) {
    forall i, j :: 0 <= i < j < |approvals| ==> approvals[i].keyId != approvals[j].keyId
  }

  predicate Accountable(crypto: Crypto, keys: map<nat, Key>, digest: nat, a: Approval) {
    && a.governed && Approves(crypto, keys, digest, a) && crypto.derive(keys[a.keyId]) == a.keyId
  }

  predicate Assembles(crypto: Crypto, policy: Policy, digest: nat, approvals: seq<Approval>) {
    && (forall i :: 0 <= i < |approvals| ==> Accountable(crypto, Keys(policy.authorities), digest, approvals[i]))
    && Distinct(approvals)
    && policy.threshold <= |approvals| <= |policy.authorities|
  }

  /** The approvals of the envelope, if one is written. */
  function Assembled(crypto: Crypto, policy: Policy, digest: nat, approvals: seq<Approval>): Option<seq<Approval>> {
    if Assembles(crypto, policy, digest, approvals) then Some(Sort(approvals)) else None
  }

  /** The assembler's loop over approval files, in argument order. */
  method Assemble(crypto: Crypto, policy: Policy, digest: nat, files: seq<Approval>)
    returns (envelope: Option<seq<Approval>>)
    ensures envelope == Assembled(crypto, policy, digest, files)
  {
    var keys := Keys(policy.authorities);
    var approvals: seq<Approval> := [];
    for i := 0 to |files|
      invariant approvals == files[..i]
      invariant forall j :: 0 <= j < i ==> Accountable(crypto, keys, digest, files[j])
    {
      if !Accountable(crypto, keys, digest, files[i]) {
        return None;
      }
      approvals := approvals + [files[i]];
    }
    assert files[..|files|] == files;
    approvals := Sort(approvals);
    SortSorts(files);
    DistinctIsPermutable(approvals, files);
    DistinctCounts(approvals);
    if |Ids(approvals)| != |approvals| || !(policy.threshold <= |approvals| <= |policy.authorities|) {
      return None;
    }
    return Some(approvals);
  }

  function Ids(approvals: seq<Approval>): set<nat> {
    set a | a in approvals :: a.keyId
  }

  /** No key occurs twice exactly when there are as many keys as approvals. */
  lemma {:induction false} DistinctCounts(approvals: seq<Approval>)
    ensures |Ids(approvals)| <= |approvals|
    ensures |Ids(approvals)| == |approvals| <==> Distinct(approvals)
  {
    if approvals != [] {
      var rest := approvals[1..];
      DistinctCounts(rest);
      assert approvals == [approvals[0]] + rest;
      assert Ids(approvals) == {approvals[0].keyId} + Ids(rest);
      assert Distinct(approvals) <==> Distinct(rest) && approvals[0].keyId !in Ids(rest);
    }
  }

  lemma DistinctIsPermutable(a: seq<Approval>, b: seq<Approval>)
    requires multiset(a) == multiset(b)
    ensures Distinct(a) <==> Distinct(b)
  {
    SameMembers(a, b);
    DistinctCounts(a);
    DistinctCounts(b);
    assert Ids(a) == Ids(b);
  }

  lemma SameMembers(a: seq<Approval>, b: seq<Approval>)
    requires multiset(a) == multiset(b)
    ensures |a| == |b| && forall x :: x in a <==> x in b
  {
    assert |multiset(a)| == |a| && |multiset(b)| == |b|;
    assert forall x :: x in a <==> x in multiset(a);
    assert forall x :: x in b <==> x in multiset(b);
  }

  lemma {:induction false} InsertPermutes(a: Approval, approvals: seq<Approval>)
    ensures multiset(Insert(a, approvals)) == multiset{a} + multiset(approvals)
  {
    if approvals != [] && approvals[0].keyId < a.keyId {
      InsertPermutes(a, approvals[1..]);
      assert approvals == [approvals[0]] + approvals[1..];
      assert multiset(approvals) == multiset{approvals[0]} + multiset(approvals[1..]);
    }
  }

  lemma {:induction false} InsertSorts(a: Approval, approvals: seq<Approval>)
    requires Sorted(approvals)
    ensures Sorted(Insert(a, approvals))
    ensures forall x :: x in Insert(a, approvals) ==> x == a || x in approvals
  {
    if approvals != [] && approvals[0].keyId < a.keyId {
      var rest := Insert(a, approvals[1..]);
      InsertSorts(a, approvals[1..]);
      assert forall x :: x in approvals[1..] ==> approvals[0].keyId <= x.keyId;
      assert forall j :: 0 <= j < |rest| ==> rest[j] in rest && approvals[0].keyId <= rest[j].keyId;
    }
  }

  lemma {:induction false} SortSorts(approvals: seq<Approval>)
    ensures Sorted(Sort(approvals)) && multiset(Sort(approvals)) == multiset(approvals)
    ensures |Sort(approvals)| == |approvals|
  {
    if approvals != [] {
      SortSorts(approvals[1..]);
      InsertSorts(approvals[0], Sort(approvals[1..]));
      InsertPermutes(approvals[0], Sort(approvals[1..]));
      assert approvals == [approvals[0]] + approvals[1..];
    }
    SameMembers(Sort(approvals), approvals);
  }

  lemma WithoutFirst(a: seq<Approval>)
    requires a != []
    ensures multiset(a[1..]) == multiset(a) - multiset{a[0]}
  {
    assert a == [a[0]] + a[1..];
  }

  /** Of two lists with the same contents, both sorted and one strictly, the first is the same. */
  lemma SameFirst(a: seq<Approval>, b: seq<Approval>)
    requires StrictlySorted(a) && Sorted(b) && multiset(a) == multiset(b) && a != [] && b != []
    ensures a[0] == b[0]
  {
    SameMembers(a, b);
    assert a[0] in b && b[0] in a;
    var i :| 0 <= i < |a| && a[i] == b[0];
    var j :| 0 <= j < |b| && b[j] == a[0];
    assert b[0].keyId <= b[j].keyId && a[0].keyId <= a[i].keyId;
  }

  /** Sorted and distinct, a list is determined by its contents. */
  lemma {:induction false} StrictOrderIsUnique(a: seq<Approval>, b: seq<Approval>)
    requires StrictlySorted(a) && Sorted(b) && multiset(a) == multiset(b)
    ensures a == b
  {
    SameMembers(a, b);
    if a != [] {
      SameFirst(a, b);
      WithoutFirst(a);
      WithoutFirst(b);
      StrictOrderIsUnique(a[1..], b[1..]);
      assert a == [a[0]] + a[1..] && b == [b[0]] + b[1..];
    }
  }

  /** The order of the arguments does not matter: the same files give the same envelope,
      or none. */
  lemma AssemblyIgnoresOrder(crypto: Crypto, policy: Policy, digest: nat, files: seq<Approval>, others: seq<Approval>)
    requires multiset(files) == multiset(others)
    ensures Assembled(crypto, policy, digest, files) == Assembled(crypto, policy, digest, others)
  {
    DistinctIsPermutable(files, others);
    SameMembers(files, others);
    assert (forall i :: 0 <= i < |files| ==> files[i] in others) && (forall i :: 0 <= i < |others| ==> others[i] in files);
    if Distinct(files) {
      SortSorts(files);
      SortSorts(others);
      DistinctIsPermutable(files, Sort(files));
      StrictOrderIsUnique(Sort(files), Sort(others));
    }
  }

  // ---- The verifier -------------------------------------------------------

  /** What the approval loop of `validate_signed_activation` accepts. */
  predicate Accepted(crypto: Crypto, policy: Policy, digest: nat, approvals: seq<Approval>) {
    && policy.threshold <= |approvals| <= |Keys(policy.authorities)|
    && StrictlySorted(approvals)
    && forall i :: 0 <= i < |approvals| ==>
         approvals[i].keyId != 0 && approvals[i].digest != 0
         && Approves(crypto, Keys(policy.authorities), digest, approvals[i])
  }

  method VerifyApprovals(crypto: Crypto, policy: Policy, keys: map<nat, Key>, digest: nat, approvals: seq<Approval>)
    returns (ok: bool)
    requires keys == Keys(policy.authorities)
    ensures ok <==> Accepted(crypto, policy, digest, approvals)
  {
    if !(policy.threshold <= |approvals| <= |keys|) {
      return false;
    }
    var previous: Option<nat> := None;
    for i := 0 to |approvals|
      invariant previous == if i == 0 then None else Some(approvals[i - 1].keyId)
      invariant StrictlySorted(approvals[..i])
      invariant forall j :: 0 <= j < i ==>
        approvals[j].keyId != 0 && approvals[j].digest != 0 && Approves(crypto, keys, digest, approvals[j])
    {
      var a := approvals[i];
      if a.keyId == 0 {
        return false;
      }
      if previous.Some? && previous.value >= a.keyId {
        assert approvals[i - 1].keyId >= approvals[i].keyId;
        return false;
      }
      previous := Some(a.keyId);
      if a.keyId !in keys || !a.p256 || !a.lowS || a.digest == 0 || a.digest != digest || !InScalarDomain(a.r, a.s) {
        return false;
      }
      if !crypto.verifies(keys[a.keyId], digest, a.r, a.s) {
        return false;
      }
    }
    return true;
  }

  /** Under a valid policy an assembled envelope is accepted, exactly when its digest is
      not the zero digest, which only the verifier refuses. */
  lemma AssembledIsAccepted(crypto: Crypto, policy: Policy, digest: nat, files: seq<Approval>)
    requires ValidPolicy(crypto, policy) && Assembled(crypto, policy, digest, files).Some?
    ensures Accepted(crypto, policy, digest, Assembled(crypto, policy, digest, files).value) <==> digest != 0
  {
    var sorted := Sort(files);
    SortSorts(files);
    DistinctIsPermutable(files, sorted);
    KeysAreAuthorities(policy.authorities);
    forall i | 0 <= i < |sorted|
      ensures sorted[i].keyId != 0 && Accountable(crypto, Keys(policy.authorities), digest, sorted[i])
    {
      assert sorted[i] in multiset(files);
      assert sorted[i] in files;
    }
  }

  lemma SignedIsAccountable(crypto: Crypto, policy: Policy, key: Key, digest: nat, der: seq<Byte>)
    requires ValidPolicy(crypto, policy) && Authorized(policy, key) && Signed(crypto, key, digest, der).Some?
    ensures var a := Signed(crypto, key, digest, der).value;
      a.keyId == crypto.derive(key) && Accountable(crypto, Keys(policy.authorities), digest, a)
  {
    AuthorizedKeys(crypto, policy, key);
  }

  /** Approvals that the signer wrote for distinct keys of the policy, at least the
      threshold of them, assemble in every order to one envelope, which is accepted. */
  lemma SignedApprovalsAreAccepted(
    crypto: Crypto, policy: Policy, digest: nat, keys: seq<Key>, ders: seq<seq<Byte>>, files: seq<Approval>,
    arguments: seq<Approval>)
    requires ValidPolicy(crypto, policy) && digest != 0
    requires |keys| == |ders| == |files| && policy.threshold <= |files| <= |policy.authorities|
    requires forall i :: 0 <= i < |keys| ==> Authorized(policy, keys[i])
    requires forall i, j :: 0 <= i < j < |keys| ==> crypto.derive(keys[i]) != crypto.derive(keys[j])
    requires forall i :: 0 <= i < |keys| ==> Signed(crypto, keys[i], digest, ders[i]) == Some(files[i])
    requires multiset(arguments) == multiset(files)
    ensures Assembled(crypto, policy, digest, arguments) == Some(Sort(files))
    ensures Accepted(crypto, policy, digest, Sort(files))
  {
    forall i | 0 <= i < |files| ensures Accountable(crypto, Keys(policy.authorities), digest, files[i]) {
      AuthorizedKeys(crypto, policy, keys[i]);
      SignedIsAccountable(crypto, policy, keys[i], digest, ders[i]);
    }
    AssembledIsAccepted(crypto, policy, digest, files);
    AssemblyIgnoresOrder(crypto, policy, digest, arguments, files);
  }

  /** Somebody in the policy with this key ID verifies this digest, by one of these. */
  ghost predicate Endorsed(crypto: Crypto, policy: Policy, digest: nat, approvals: seq<Approval>, id: nat) {
    exists i, a ::
      && 0 <= i < |policy.authorities| && policy.authorities[i].keyId == id && a in approvals
      && InScalarDomain(a.r, a.s) && crypto.verifies(policy.authorities[i].key, digest, a.r, a.s)
  }

  /** An accepted envelope has at least the threshold of distinct policy keys, never fewer
      than two, each of which verifies this very digest; every scalar is in range and no s
      is above half the order. */
  lemma AcceptedMeansThreshold(crypto: Crypto, policy: Policy, digest: nat, approvals: seq<Approval>)
    requires ValidPolicy(crypto, policy) && Accepted(crypto, policy, digest, approvals)
    ensures |Ids(approvals)| >= policy.threshold && |Ids(approvals)| >= 2 && digest != 0
    ensures forall a :: a in approvals ==> 0 < a.r < P256Order && 0 < a.s && 2 * a.s <= P256Order && a.digest == digest
    ensures forall id :: id in Ids(approvals) ==> Endorsed(crypto, policy, digest, approvals, id)
  {
    DistinctCounts(approvals);
    KeysAreAuthorities(policy.authorities);
    forall id | id in Ids(approvals) ensures Endorsed(crypto, policy, digest, approvals, id) {
      var a :| a in approvals && a.keyId == id;
      var i :| 0 <= i < |policy.authorities| && policy.authorities[i].keyId == id;
      KeyOf(policy.authorities, i);
      assert Approves(crypto, Keys(policy.authorities), digest, a);
    }
  }
}
