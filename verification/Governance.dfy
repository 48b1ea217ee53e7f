/** Governance signatures: who may authorise a registry change, and how a transaction is named. */
module Governance {
  import opened Wrappers
  import opened Bytes
  import opened Types
  import opened Sorting

  /** `verify(key, message, signature)` is Ed25519 verification, left open. */
  datatype Context = Context(
    keys: seq<bytes>,
    threshold: nat,
    networkId: bytes,
    verify: (bytes, Hash, bytes) -> bool)

  datatype GovernanceError = KeyIndexOutOfRange | DuplicateKeyIndex | InsufficientSignatures

  predicate ValidContext(ctx: Context) {
    && 1 <= |ctx.keys| <= 16
    && (forall i, j :: 0 <= i < j < |ctx.keys| ==> ctx.keys[i] != ctx.keys[j])
    && (forall i :: 0 <= i < |ctx.keys| ==> |ctx.keys[i]| == 32)
    && 1 <= ctx.threshold <= |ctx.keys|
    && ctx.networkId != []
  }

  /** The transaction without its witnesses: what every signature covers. */
  function Body(tx: GovernanceTx): GovernanceTx {
    var action := match tx.action
                  case Register(_, _) => tx.action
                  case Rotate(newPublicKey, activation, metadata, _) => Rotate(newPublicKey, activation, metadata, [])
                  case Revoke(revocation, reason, _) => Revoke(revocation, reason, []);
    tx.(signatures := [], action := action)
  }

  // ---------- the threshold check ----------

  predicate IndicesInRange(ctx: Context, sigs: seq<Signature>) {
    forall i :: 0 <= i < |sigs| ==> sigs[i].keyIndex < |ctx.keys|
  }

  predicate IndicesDistinct(sigs: seq<Signature>) {
    forall i, j :: 0 <= i < j < |sigs| ==> sigs[i].keyIndex != sigs[j].keyIndex
  }

  /** The key indices that signed the message. */
  function Signers(ctx: Context, message: Hash, sigs: seq<Signature>): set<nat>
    requires IndicesInRange(ctx, sigs)
  {
    set i | 0 <= i < |sigs| && ctx.verify(ctx.keys[sigs[i].keyIndex], message, sigs[i].sig) :: sigs[i].keyIndex
  }

  predicate Authorised(ctx: Context, message: Hash, sigs: seq<Signature>) {
    && IndicesInRange(ctx, sigs)
    && IndicesDistinct(sigs)
    && |Signers(ctx, message, sigs)| >= ctx.threshold
  }

  method VerifyGovernanceSignatures(ctx: Context, message: Hash, sigs: seq<Signature>)
    returns (r: Result<(), GovernanceError>)
    ensures r.Ok? <==> Authorised(ctx, message, sigs)
    ensures r == Err(InsufficientSignatures)
            <==> IndicesInRange(ctx, sigs) && IndicesDistinct(sigs) && |Signers(ctx, message, sigs)| < ctx.threshold
    ensures r == Err(DuplicateKeyIndex) ==> !IndicesDistinct(sigs)
    ensures r == Err(KeyIndexOutOfRange) ==> !IndicesInRange(ctx, sigs)
  {
    var used: set<nat> := {};
    var valid := 0;
    for i := 0 to |sigs|
      invariant IndicesInRange(ctx, sigs[..i]) && IndicesDistinct(sigs[..i])
      invariant forall k :: k in used <==> exists j :: 0 <= j < i && sigs[j].keyIndex == k
      invariant Signers(ctx, message, sigs[..i]) <= used
      invariant valid == |Signers(ctx, message, sigs[..i])|
    {
      var sig := sigs[i];
      if sig.keyIndex >= |ctx.keys| {
        return Err(KeyIndexOutOfRange);
      }
      if sig.keyIndex in used {
        return Err(DuplicateKeyIndex);
      }
      used := used + {sig.keyIndex};
      SignersGrow(ctx, message, sigs[..i], sig);
      assert sigs[..i] + [sig] == sigs[..i + 1];
      if ctx.verify(ctx.keys[sig.keyIndex], message, sig.sig) {
        valid := valid + 1;
      }
    }
    assert sigs[..|sigs|] == sigs;
    if valid < ctx.threshold {
      return Err(InsufficientSignatures);
    }
    return Ok(());
  }

  lemma {:induction false} SignersGrow(ctx: Context, message: Hash, sigs: seq<Signature>, sig: Signature)
    requires IndicesInRange(ctx, sigs) && sig.keyIndex < |ctx.keys|
    ensures IndicesInRange(ctx, sigs + [sig])
    ensures Signers(ctx, message, sigs + [sig])
            == Signers(ctx, message, sigs)
               + if ctx.verify(ctx.keys[sig.keyIndex], message, sig.sig) then {sig.keyIndex} else {}
  {
    var all := sigs + [sig];
    forall k | k in Signers(ctx, message, sigs) ensures k in Signers(ctx, message, all) {
      var i :| 0 <= i < |sigs| && ctx.verify(ctx.keys[sigs[i].keyIndex], message, sigs[i].sig) && sigs[i].keyIndex == k;
      assert all[i] == sigs[i];
    }
    assert all[|sigs|] == sig;
  }

  /** Authorisation means that at least `threshold` different governance keys signed. */
  lemma {:induction false} ThresholdManyKeysSigned(ctx: Context, message: Hash, sigs: seq<Signature>)
    returns (keys: set<bytes>)
    requires ValidContext(ctx) && Authorised(ctx, message, sigs)
    ensures |keys| >= ctx.threshold
    ensures forall k :: k in keys ==> k in ctx.keys && exists s :: s in sigs && ctx.verify(k, message, s.sig)
  {
    var signers := Signers(ctx, message, sigs);
    keys := set i | i in signers :: ctx.keys[i];
    DistinctImage(ctx.keys, signers);
    forall k | k in keys ensures exists s :: s in sigs && ctx.verify(k, message, s.sig) {
      var i :| i in signers && ctx.keys[i] == k;
      var j :| 0 <= j < |sigs| && ctx.verify(ctx.keys[sigs[j].keyIndex], message, sigs[j].sig) && sigs[j].keyIndex == i;
      assert sigs[j] in sigs;
    }
  }

  lemma {:induction false} DistinctImage(keys: seq<bytes>, indices: set<nat>)
    requires forall i, j :: 0 <= i < j < |keys| ==> keys[i] != keys[j]
    requires forall i :: i in indices ==> i < |keys|
    ensures |(set i | i in indices :: keys[i])| == |indices|
    decreases |indices|
  {
    if indices != {} {
      var i :| i in indices;
      DistinctImage(keys, indices - {i});
      assert (set j | j in indices :: keys[j]) == (set j | j in indices - {i} :: keys[j]) + {keys[i]};
    }
  }

  /** Enough different key indices with a signature that verifies. */
  ghost predicate SignedByEnough(ctx: Context, message: Hash, sigs: seq<Signature>) {
    exists signers: set<nat> :: AllSigned(ctx, message, sigs, signers) && |signers| == ctx.threshold
  }

  ghost predicate AllSigned(ctx: Context, message: Hash, sigs: seq<Signature>, signers: set<nat>) {
    forall k :: k in signers ==> SignedByKey(ctx, message, sigs, k)
  }

  ghost predicate SignedByKey(ctx: Context, message: Hash, sigs: seq<Signature>, k: nat) {
    k < |ctx.keys| && exists s: Signature :: s in sigs && s.keyIndex == k && ctx.verify(ctx.keys[k], message, s.sig)
  }

  /** Indices in range, no index twice, and at least threshold keys signed: nothing more is asked. */
  lemma {:induction false} AuthorisedExactlyWhen(ctx: Context, message: Hash, sigs: seq<Signature>)
    ensures Authorised(ctx, message, sigs)
            <==> && (forall s :: s in sigs ==> s.keyIndex < |ctx.keys|)
                 && (forall i, j :: 0 <= i < j < |sigs| ==> sigs[i].keyIndex != sigs[j].keyIndex)
                 && SignedByEnough(ctx, message, sigs)
  {
    if IndicesInRange(ctx, sigs) {
      forall k ensures k in Signers(ctx, message, sigs) <==> SignedByKey(ctx, message, sigs, k) {
        SignersSigned(ctx, message, sigs, k);
      }
      EnoughSigners(ctx, message, sigs);
    }
    if forall s :: s in sigs ==> s.keyIndex < |ctx.keys| {
      assert forall i :: 0 <= i < |sigs| ==> sigs[i] in sigs;
    }
  }

  lemma {:induction false} SignersSigned(ctx: Context, message: Hash, sigs: seq<Signature>, k: nat)
    requires IndicesInRange(ctx, sigs)
    ensures k in Signers(ctx, message, sigs) <==> SignedByKey(ctx, message, sigs, k)
  {
    if SignedByKey(ctx, message, sigs, k) {
      var s :| s in sigs && s.keyIndex == k && ctx.verify(ctx.keys[k], message, s.sig);
      var i :| 0 <= i < |sigs| && sigs[i] == s;
    }
  }

  lemma {:induction false} EnoughSigners(ctx: Context, message: Hash, sigs: seq<Signature>)
    requires IndicesInRange(ctx, sigs)
    requires forall k :: k in Signers(ctx, message, sigs) <==> SignedByKey(ctx, message, sigs, k)
    ensures |Signers(ctx, message, sigs)| >= ctx.threshold <==> SignedByEnough(ctx, message, sigs)
  {
    var all := Signers(ctx, message, sigs);
    if |all| >= ctx.threshold {
      var signers := SubsetOfSize(all, ctx.threshold);
      assert AllSigned(ctx, message, sigs, signers);
    }
    if SignedByEnough(ctx, message, sigs) {
      var signers: set<nat> :| AllSigned(ctx, message, sigs, signers) && |signers| == ctx.threshold;
      SubsetIsSmaller(signers, all);
    }
  }

  lemma {:induction false} SubsetOfSize(all: set<nat>, n: nat) returns (some: set<nat>)
    requires n <= |all|
    ensures some <= all && |some| == n
    decreases |all|
  {
    if |all| == n {
      some := all;
    } else {
      var k :| k in all;
      some := SubsetOfSize(all - {k}, n);
    }
  }

  lemma {:induction false} SubsetIsSmaller(some: set<nat>, all: set<nat>)
    requires some <= all
    ensures |some| <= |all|
    decreases |some|
  {
    if some != {} {
      var k :| k in some;
      SubsetIsSmaller(some - {k}, all - {k});
    }
  }

  // ---------- what is signed ----------

  /** Everything in two actions but the curator's signature is equal. */
  predicate SameAction(a: Action, b: Action) {
    match (a, b)
    case (Register(x, m), Register(y, n)) => x == y && m == n
    case (Rotate(k, x, m, _), Rotate(l, y, n, _)) => k == l && x == y && m == n
    case (Revoke(x, r, _), Revoke(y, q, _)) => x == y && r == q
    case _ => false
  }

  /**
   A signature covers every field but the witnesses: two transactions have one signing hash exactly when
   curator, key, state named, network and action are equal field by field, whoever signed them.
   */
  lemma {:induction false} SignedFields(a: GovernanceTx, b: GovernanceTx, n: bytes, m: bytes)
    ensures SigningHash(n, Body(a)) == SigningHash(m, Body(b))
            <==> && n == m
                 && a.curatorId == b.curatorId && a.publicKey == b.publicKey && a.previousRoot == b.previousRoot
                 && a.networkId == b.networkId && SameAction(a.action, b.action)
  {
  }

  // ---------- transaction ids ----------

  predicate IndexLeq(a: Signature, b: Signature) {
    a.keyIndex <= b.keyIndex
  }

  /** The id hashes the whole transaction with its signatures put in key order. */
  function TxidOf(tx: GovernanceTx): Hash {
    Txid(tx.(signatures := Sort(tx.signatures, IndexLeq)))
  }

  /** Reordering the signatures of an authorised transaction changes neither its authorisation nor its id. */
  lemma {:induction false} SignatureOrderIsIrrelevant(ctx: Context, message: Hash, tx: GovernanceTx,
                                                      sigs: seq<Signature>)
    requires multiset(sigs) == multiset(tx.signatures)
    requires Authorised(ctx, message, tx.signatures)
    ensures Authorised(ctx, message, sigs)
    ensures TxidOf(tx.(signatures := sigs)) == TxidOf(tx)
  {
    var given := tx.signatures;
    forall s ensures s in sigs <==> s in given {
      assert s in multiset(sigs) <==> s in multiset(given);
    }
    forall i | 0 <= i < |sigs| ensures sigs[i].keyIndex < |ctx.keys| {
      assert sigs[i] in given;
    }
    DistinctUnderPermutation(given, sigs);
    assert Signers(ctx, message, sigs) == Signers(ctx, message, given) by {
      SameSigners(ctx, message, sigs, given);
      SameSigners(ctx, message, given, sigs);
    }
    SortPermutes(sigs, IndexLeq);
    SortPermutes(given, IndexLeq);
    SortSorts(sigs, IndexLeq);
    SortSorts(given, IndexLeq);
    forall x, y | x in Sort(sigs, IndexLeq) && y in Sort(sigs, IndexLeq) && IndexLeq(x, y) && IndexLeq(y, x)
      ensures x == y
    {
      assert x in multiset(Sort(sigs, IndexLeq)) && y in multiset(Sort(sigs, IndexLeq));
      var i :| 0 <= i < |given| && given[i] == x;
      var j :| 0 <= j < |given| && given[j] == y;
    }
    SortedArrangementsAgree(Sort(sigs, IndexLeq), Sort(given, IndexLeq), IndexLeq);
  }

  lemma {:induction false} SameSigners(ctx: Context, message: Hash, a: seq<Signature>, b: seq<Signature>)
    requires IndicesInRange(ctx, a) && IndicesInRange(ctx, b)
    requires forall s :: s in a ==> s in b
    ensures Signers(ctx, message, a) <= Signers(ctx, message, b)
  {
    forall k | k in Signers(ctx, message, a) ensures k in Signers(ctx, message, b) {
      var i :| 0 <= i < |a| && ctx.verify(ctx.keys[a[i].keyIndex], message, a[i].sig) && a[i].keyIndex == k;
      assert a[i] in b;
      var j :| 0 <= j < |b| && b[j] == a[i];
    }
  }

  function WithIndex(k: nat): Signature -> bool {
    (s: Signature) => s.keyIndex == k
  }

  lemma {:induction false} DistinctUnderPermutation(a: seq<Signature>, b: seq<Signature>)
    requires multiset(a) == multiset(b) && IndicesDistinct(a)
    ensures IndicesDistinct(b)
  {
    forall i, j | 0 <= i < j < |b| ensures b[i].keyIndex != b[j].keyIndex {
      var p := WithIndex(b[i].keyIndex);
      AtMostOneByPosition(a, p);
      FilterCount(a, b, p);
      AtMostOneByPosition(b, p);
      assert !(p(b[i]) && p(b[j]));
    }
  }

  /**
   Of two transactions with no key index twice, ids are equal exactly when all fields and the set of
   signatures are.
   */
  lemma {:induction false} IdsAreExact(a: GovernanceTx, b: GovernanceTx)
    requires IndicesDistinct(a.signatures) && IndicesDistinct(b.signatures)
    ensures TxidOf(a) == TxidOf(b)
            <==> && a.curatorId == b.curatorId && a.publicKey == b.publicKey && a.previousRoot == b.previousRoot
                 && a.networkId == b.networkId && a.action == b.action
                 && multiset(a.signatures) == multiset(b.signatures)
  {
    SortPermutes(a.signatures, IndexLeq);
    SortPermutes(b.signatures, IndexLeq);
    if multiset(a.signatures) == multiset(b.signatures) {
      SortedSignaturesAgree(a.signatures, b.signatures);
    }
  }

  lemma {:induction false} SortedSignaturesAgree(a: seq<Signature>, b: seq<Signature>)
    requires multiset(a) == multiset(b) && IndicesDistinct(a)
    ensures Sort(a, IndexLeq) == Sort(b, IndexLeq)
  {
    SortPermutes(a, IndexLeq);
    SortPermutes(b, IndexLeq);
    SortSorts(a, IndexLeq);
    SortSorts(b, IndexLeq);
    forall x, y | x in Sort(a, IndexLeq) && y in Sort(a, IndexLeq) && IndexLeq(x, y) && IndexLeq(y, x) ensures x == y {
      assert x in multiset(Sort(a, IndexLeq)) && y in multiset(Sort(a, IndexLeq));
      var i :| 0 <= i < |a| && a[i] == x;
      var j :| 0 <= j < |a| && a[j] == y;
    }
    SortedArrangementsAgree(Sort(a, IndexLeq), Sort(b, IndexLeq), IndexLeq);
  }
}
