/** What one accepted transaction does to the registry, and when it changes who was in force in the past. */
module RegistryEffects {
  import opened Wrappers
  import opened Bytes
  import opened Types
  import opened Sorting
  import opened Governance
  import opened Registry
  import opened RegistryHistory

  /** The curator's records after the transaction. */
  function NewRecords(s: State, tx: GovernanceTx): seq<Record>
    requires !tx.action.Register? ==> Matches(s, tx.curatorId) != []
  {
    match tx.action
    case Register(activation, _) =>
      [CuratorRecord(tx.curatorId, tx.publicKey, activation, None, None, TxidOf(tx), None)]
    case Rotate(newKey, activation, _, _) =>
      var current := Latest(Matches(s, tx.curatorId));
      [current.(revocation := Some(activation), latestRotationTxid := Some(TxidOf(tx))),
       CuratorRecord(tx.curatorId, newKey, activation, None, Some(current.publicKey), current.registrationTxid,
                     Some(TxidOf(tx)))]
    case Revoke(revocation, _, _) =>
      [Latest(Matches(s, tx.curatorId)).(revocation := Some(revocation), latestRotationTxid := Some(TxidOf(tx)))]
  }

  /** The height at which the transaction takes effect. */
  function EffectiveAt(tx: GovernanceTx): nat {
    match tx.action
    case Register(activation, _) => activation
    case Rotate(_, activation, _, _) => activation
    case Revoke(revocation, _, _) => revocation
  }

  /**
   The effect: later than its block, and one curator's records replaced. A register needs a new curator, the
   others a known one.
   */
  ghost predicate Effect(s: State, tx: GovernanceTx, height: nat, t: State) {
    && EffectiveAt(tx) > height
    && (tx.action.Register? <==> Matches(s, tx.curatorId) == [])
    && (tx.action.Revoke? ==> Latest(Matches(s, tx.curatorId)).revocation == None)
    && t.records == Replace(s.records, tx.curatorId, NewRecords(s, tx))
  }

  lemma {:induction false} RegisterEffect(s: State, tx: GovernanceTx, height: nat)
    requires tx.action.Register? && ApplyRegister(s, tx, height).Ok?
    ensures Effect(s, tx, height, ApplyRegister(s, tx, height).value)
  {
    FilterNone(s.records, HasId(tx.curatorId));
    FilterKeepsAll(s.records, NotId(tx.curatorId));
  }

  lemma {:induction false} RotateEffect(ctx: Context, s: State, tx: GovernanceTx, height: nat)
    requires tx.action.Rotate? && ApplyRotate(ctx, s, tx, height).Ok?
    ensures Effect(s, tx, height, ApplyRotate(ctx, s, tx, height).value)
  {
  }

  lemma {:induction false} RevokeEffect(ctx: Context, s: State, tx: GovernanceTx, height: nat)
    requires tx.action.Revoke? && ApplyRevoke(ctx, s, tx, height).Ok?
    ensures Effect(s, tx, height, ApplyRevoke(ctx, s, tx, height).value)
  {
  }

  lemma {:induction false} AppliedHasEffect(ctx: Context, s: State, tx: GovernanceTx, height: nat)
    requires Apply(ctx, s, tx, height).Ok?
    ensures Effect(s, tx, height, Apply(ctx, s, tx, height).value)
  {
    match tx.action
    case Register(_, _) => RegisterEffect(s, tx, height);
    case Rotate(_, _, _, _) => RotateEffect(ctx, s, tx, height);
    case Revoke(_, _, _) => RevokeEffect(ctx, s, tx, height);
  }

  // ---------- when a transaction is accepted ----------

  /** The latest record is the first of those with the largest activation height. */
  lemma {:induction false} LatestIsFirstHighest(m: seq<Record>) returns (i: nat)
    requires m != []
    ensures i < |m| && m[i] == Latest(m)
    ensures forall j ::
              0 <= j < |m| ==> (if j < i then m[j].activation < m[i].activation else m[j].activation <= m[i].activation)
    decreases |m|
  {
    if |m| == 1 {
      i := 0;
    } else {
      var k := LatestIsFirstHighest(m[1..]);
      i := if m[0].activation >= m[1..][k].activation then 0 else k + 1;
      forall j | 0 <= j < |m|
        ensures if j < i then m[j].activation < m[i].activation else m[j].activation <= m[i].activation
      {
        assert j > 0 ==> m[j] == m[1..][j - 1];
      }
    }
  }

  /** Governance signed the transaction. */
  ghost predicate GovernanceSigned(ctx: Context, tx: GovernanceTx) {
    var message := SigningHash(ctx.networkId, Body(tx));
    && (forall sig :: sig in tx.signatures ==> sig.keyIndex < |ctx.keys|)
    && (forall i, j :: 0 <= i < j < |tx.signatures| ==> tx.signatures[i].keyIndex != tx.signatures[j].keyIndex)
    && SignedByEnough(ctx, message, tx.signatures)
  }

  ghost predicate Free(s: State, id: bytes, key: bytes) {
    forall r :: r in s.records ==> r.curatorId != id && r.publicKey != key
  }

  ghost predicate FreeOrOwn(s: State, id: bytes, key: bytes) {
    forall r :: r in s.records && r.publicKey == key ==> r.curatorId == id
  }

  /** What the reducer asks of the transaction itself, given governance's signatures. */
  ghost predicate InPlace(ctx: Context, s: State, tx: GovernanceTx, height: nat) {
    && tx.previousRoot == RegistryRoot(s)
    && match tx.action
       case Register(activation, _) => activation > height && Free(s, tx.curatorId, tx.publicKey)
       case Rotate(newKey, activation, _, signature) =>
         && activation > height && newKey != tx.publicKey && FreeOrOwn(s, tx.curatorId, newKey)
         && Matches(s, tx.curatorId) != [] && Latest(Matches(s, tx.curatorId)).publicKey == tx.publicKey
         && ctx.verify(tx.publicKey, SigningHash(NETWORK_ID, Body(tx)), signature)
       case Revoke(revocation, _, signature) =>
         && revocation > height
         && Matches(s, tx.curatorId) != [] && Latest(Matches(s, tx.curatorId)).publicKey == tx.publicKey
         && Latest(Matches(s, tx.curatorId)).revocation == None
         && Latest(Matches(s, tx.curatorId)).activation <= revocation
         && ctx.verify(tx.publicKey, SigningHash(NETWORK_ID, Body(tx)), signature)
  }

  /**
   A transaction is accepted exactly when governance signed it and it is in place; without the signatures the
   fault is the governance fault, whatever else is wrong, and otherwise the registry's.
   */
  lemma {:induction false} AcceptedExactlyWhen(ctx: Context, s: State, tx: GovernanceTx, height: nat)
    ensures var r := Apply(ctx, s, tx, height);
            && (r.Ok? <==> GovernanceSigned(ctx, tx) && InPlace(ctx, s, tx, height))
            && (r == Err(GovernanceFault) <==> !GovernanceSigned(ctx, tx))
  {
    AuthorisedExactlyWhen(ctx, SigningHash(ctx.networkId, Body(tx)), tx.signatures);
    match tx.action
    case Register(_, _) => RegisterInPlace(ctx, s, tx, height);
    case Rotate(_, _, _, _) => RotateInPlace(ctx, s, tx, height);
    case Revoke(_, _, _) => RevokeInPlace(ctx, s, tx, height);
  }

  lemma {:induction false} RegisterInPlace(ctx: Context, s: State, tx: GovernanceTx, height: nat)
    requires tx.action.Register?
    ensures var r := ApplyRegister(s, tx, height);
            (r.Ok? <==> InPlace(ctx, s, tx, height)) && r != Err(GovernanceFault)
  {
  }

  lemma {:induction false} RotateInPlace(ctx: Context, s: State, tx: GovernanceTx, height: nat)
    requires tx.action.Rotate?
    ensures var r := ApplyRotate(ctx, s, tx, height);
            (r.Ok? <==> InPlace(ctx, s, tx, height)) && r != Err(GovernanceFault)
  {
  }

  lemma {:induction false} RevokeInPlace(ctx: Context, s: State, tx: GovernanceTx, height: nat)
    requires tx.action.Revoke?
    ensures var r := ApplyRevoke(ctx, s, tx, height);
            (r.Ok? <==> InPlace(ctx, s, tx, height)) && r != Err(GovernanceFault)
  {
  }

  /** An accepted transaction takes effect later than its block, and touches the records of its own curator only. */
  lemma {:induction false} OnlyOneCuratorChanges(ctx: Context, s: State, tx: GovernanceTx, height: nat, other: bytes)
    requires Apply(ctx, s, tx, height).Ok?
    ensures EffectiveAt(tx) > height
    ensures !tx.action.Register? <==> Matches(s, tx.curatorId) != []
    ensures var t := Apply(ctx, s, tx, height).value;
            && Matches(t, tx.curatorId) == NewRecords(s, tx)
            && (other != tx.curatorId ==> Matches(t, other) == Matches(s, other))
            && multiset(t.records) == multiset(Filter(s.records, NotId(tx.curatorId)) + NewRecords(s, tx))
  {
    AppliedHasEffect(ctx, s, tx, height);
    EffectOnMatches(s, tx, height, Apply(ctx, s, tx, height).value, other);
  }

  lemma {:induction false} EffectOnMatches(s: State, tx: GovernanceTx, height: nat, t: State, other: bytes)
    requires Effect(s, tx, height, t)
    ensures Matches(t, tx.curatorId) == NewRecords(s, tx)
    ensures other != tx.curatorId ==> Matches(t, other) == Matches(s, other)
    ensures multiset(t.records) == multiset(Filter(s.records, NotId(tx.curatorId)) + NewRecords(s, tx))
  {
    ReplaceFacts(s.records, tx.curatorId, NewRecords(s, tx));
  }

  /**
   An accepted transaction was signed by at least threshold different governance keys, names the state
   it changes and, to rotate or revoke, was signed with the key of the curator's latest record.
   */
  lemma {:induction false} AcceptedMeansSigned(ctx: Context, s: State, tx: GovernanceTx, height: nat)
    returns (keys: set<bytes>)
    requires ValidContext(ctx) && Apply(ctx, s, tx, height).Ok?
    ensures |keys| >= ctx.threshold
    ensures forall k :: k in keys ==> k in ctx.keys && SignedWith(ctx, tx, k)
    ensures tx.previousRoot == RegistryRoot(s)
    ensures !tx.action.Register? ==> var m := Matches(s, tx.curatorId);
                                     m != [] && Latest(m).publicKey == tx.publicKey
                                     && ctx.verify(tx.publicKey, SigningHash(NETWORK_ID, Body(tx)),
                                                   tx.action.curatorSignature)
  {
    var message := SigningHash(ctx.networkId, Body(tx));
    keys := ThresholdManyKeysSigned(ctx, message, tx.signatures);
    forall k | k in keys ensures SignedWith(ctx, tx, k) {
      var sig :| sig in tx.signatures && ctx.verify(k, message, sig.sig);
    }
  }

  ghost predicate SignedWith(ctx: Context, tx: GovernanceTx, key: bytes) {
    exists sig :: sig in tx.signatures && ctx.verify(key, SigningHash(ctx.networkId, Body(tx)), sig.sig)
  }

  // ---------- who holds a key ----------

  /** The key is listed for the curator, whether in force or not. */
  ghost predicate Holds(s: State, id: bytes, key: bytes) {
    exists r :: r in s.records && r.curatorId == id && r.publicKey == key
  }

  ghost predicate Listed(s: State, key: bytes) {
    exists id :: Holds(s, id, key)
  }

  lemma {:induction false} HoldsInMatches(s: State, id: bytes, key: bytes)
    ensures Holds(s, id, key) <==> exists r :: r in Matches(s, id) && r.publicKey == key
  {
    if Holds(s, id, key) {
      var r :| r in s.records && r.curatorId == id && r.publicKey == key;
      assert r in Matches(s, id);
    }
  }

  lemma {:induction false} NewKeysAreNew(ctx: Context, s: State, tx: GovernanceTx, height: nat, id: bytes)
    requires Apply(ctx, s, tx, height).Ok?
    ensures tx.action.Register? ==> !Holds(s, id, tx.publicKey)
    ensures tx.action.Rotate? && Holds(s, id, tx.action.newPublicKey) ==> id == tx.curatorId
  {
  }

  /** The keys of a curator's records after the transaction: the latest one's, and a new one if it brings any. */
  lemma {:induction false} KeysAfter(s: State, tx: GovernanceTx, height: nat, t: State, key: bytes)
    requires Effect(s, tx, height, t)
    ensures Holds(t, tx.curatorId, key)
            <==> || (!tx.action.Register? && key == Latest(Matches(s, tx.curatorId)).publicKey)
                 || (tx.action.Register? && key == tx.publicKey)
                 || (tx.action.Rotate? && key == tx.action.newPublicKey)
  {
    EffectOnMatches(s, tx, height, t, tx.curatorId);
    HoldsInMatches(t, tx.curatorId, key);
    var n := NewRecords(s, tx);
    assert n[0] in n && n[|n| - 1] in n;
  }

  lemma {:induction false} OthersKeepKeys(s: State, tx: GovernanceTx, height: nat, t: State, id: bytes, key: bytes)
    requires Effect(s, tx, height, t) && id != tx.curatorId
    ensures Holds(t, id, key) <==> Holds(s, id, key)
  {
    EffectOnMatches(s, tx, height, t, id);
    HoldsInMatches(s, id, key);
    HoldsInMatches(t, id, key);
  }

  /** One transaction never moves a key from one curator to another. */
  lemma {:induction false} NoKeyMoves(ctx: Context, s: State, tx: GovernanceTx, height: nat, from: bytes, to: bytes,
                                      key: bytes)
    requires WellFormed(s) && Apply(ctx, s, tx, height).Ok?
    requires Holds(s, from, key) && Holds(Apply(ctx, s, tx, height).value, to, key)
    ensures from == to
  {
    var t := Apply(ctx, s, tx, height).value;
    AppliedHasEffect(ctx, s, tx, height);
    if to == tx.curatorId {
      KeysAfter(s, tx, height, t, key);
      NewKeysAreNew(ctx, s, tx, height, from);
      if !tx.action.Register? && key == Latest(Matches(s, tx.curatorId)).publicKey {
        OthersLackKey(s, tx.curatorId, Latest(Matches(s, tx.curatorId)));
      }
    } else {
      OthersKeepKeys(s, tx, height, t, to, key);
      HoldersAreOne(s, from, to, key);
    }
  }

  lemma {:induction false} HoldersAreOne(s: State, a: bytes, b: bytes, key: bytes)
    requires WellFormed(s) && Holds(s, a, key) && Holds(s, b, key)
    ensures a == b
  {
    var r :| r in s.records && r.curatorId == a && r.publicKey == key;
    assert r in Matches(s, a);
    OthersLackKey(s, a, r);
  }

  /**
   A transaction takes a key off the list exactly when it drops the curator's other record and does not
   bring that key back.
   */
  lemma {:induction false} KeyIsDroppedExactlyWhen(ctx: Context, s: State, tx: GovernanceTx, height: nat, id: bytes,
                                                   key: bytes)
    requires WellFormed(s) && Apply(ctx, s, tx, height).Ok? && Holds(s, id, key)
    ensures !Listed(Apply(ctx, s, tx, height).value, key)
            <==> && id == tx.curatorId && key != Latest(Matches(s, id)).publicKey
                 && !(tx.action.Rotate? && key == tx.action.newPublicKey)
  {
    var t := Apply(ctx, s, tx, height).value;
    AppliedHasEffect(ctx, s, tx, height);
    KeysAfter(s, tx, height, t, key);
    NewKeysAreNew(ctx, s, tx, height, id);
    if id != tx.curatorId {
      OthersKeepKeys(s, tx, height, t, id, key);
      assert Holds(t, id, key);
    } else if Listed(t, key) {
      var to :| Holds(t, to, key);
      NoKeyMoves(ctx, s, tx, height, id, to, key);
    }
    if id == tx.curatorId {
      HoldsInMatches(s, id, key);
    }
  }

  /** As long as a key stays listed it stays with its curator, over any run. */
  lemma {:induction false} KeysStayWithTheirCurator(ctx: Context, s: State, steps: seq<Step>, from: bytes, to: bytes,
                                                    key: bytes)
    requires WellFormed(s) && Run(ctx, s, steps).Ok?
    requires forall k :: 0 <= k <= |steps| ==> ListedAt(ctx, s, steps, k, key)
    requires Holds(s, from, key) && Holds(Run(ctx, s, steps).value, to, key)
    ensures from == to
    decreases |steps|
  {
    if steps == [] {
      HoldersAreOne(s, from, to, key);
    } else {
      var tx, height, rest := steps[0].tx, steps[0].height, steps[1..];
      var next := Apply(ctx, s, tx, height).value;
      ApplyKeepsWellFormed(ctx, s, tx, height);
      forall k | 0 <= k <= |rest| ensures ListedAt(ctx, next, rest, k, key) {
        assert ListedAt(ctx, s, steps, k + 1, key);
        assert steps[..k + 1][1..] == rest[..k];
      }
      assert ListedAt(ctx, next, rest, 0, key);
      assert rest[..0] == [];
      var holder :| Holds(next, holder, key);
      NoKeyMoves(ctx, s, tx, height, from, holder, key);
      KeysStayWithTheirCurator(ctx, next, rest, holder, to, key);
    }
  }

  ghost predicate ListedAt(ctx: Context, s: State, steps: seq<Step>, k: nat, key: bytes)
    requires k <= |steps|
  {
    var r := Run(ctx, s, steps[..k]); r.Ok? && Listed(r.value, key)
  }

  // ---------- the past ----------

  /** The same keys in force at every height up to this one. */
  ghost predicate SamePast(s: State, t: State, id: bytes, height: nat) {
    forall key, x: nat :: x <= height ==> (KeyInForce(s, id, key, x) <==> KeyInForce(t, id, key, x))
  }

  /** In force at some height up to this one. */
  predicate EverInForce(r: Record, height: nat) {
    r.activation <= height && (r.revocation.None? || r.activation < r.revocation.value)
  }

  /**
   Two ways to change the past: the curator's other record, once in force, is dropped; or a record
   whose revocation has already taken effect is rotated, which moves that revocation into the future.
   */
  ghost predicate RewritesPast(s: State, tx: GovernanceTx, height: nat) {
    var m := Matches(s, tx.curatorId);
    && !tx.action.Register? && m != []
    && (|| (|m| == 2 && EverInForce(if Latest(m) == m[0] then m[1] else m[0], height))
        || (tx.action.Rotate? && Latest(m).revocation.Some?
            && Max(Latest(m).revocation.value, Latest(m).activation) <= height))
  }

  lemma {:induction false} InForceOfOne(s: State, id: bytes, a: Record, key: bytes, x: nat)
    requires Matches(s, id) == [a]
    ensures KeyInForce(s, id, key, x) <==> a.publicKey == key && ActiveAt(a, x)
  {
    assert a in [a];
  }

  lemma {:induction false} InForceOfTwo(s: State, id: bytes, a: Record, b: Record, key: bytes, x: nat)
    requires Matches(s, id) == [a, b]
    ensures KeyInForce(s, id, key, x)
            <==> (a.publicKey == key && ActiveAt(a, x)) || (b.publicKey == key && ActiveAt(b, x))
  {
    assert a in [a, b] && b in [a, b];
  }

  /** What is in force before and after, for the curator itself: only the latest record is carried over. */
  lemma {:induction false} InForceAfter(s: State, tx: GovernanceTx, height: nat, t: State, key: bytes, x: nat)
    requires Effect(s, tx, height, t) && x <= height
    ensures var m := Matches(s, tx.curatorId);
            KeyInForce(t, tx.curatorId, key, x) <==> m != [] && Latest(m).publicKey == key && Latest(m).activation <= x
  {
    EffectOnMatches(s, tx, height, t, tx.curatorId);
    var n := NewRecords(s, tx);
    if tx.action.Rotate? {
      InForceOfTwo(t, tx.curatorId, n[0], n[1], key, x);
    } else {
      InForceOfOne(t, tx.curatorId, n[0], key, x);
    }
  }

  lemma {:induction false} InForceBefore(s: State, id: bytes, key: bytes, x: nat)
    requires WellFormed(s)
    ensures var m := Matches(s, id);
            KeyInForce(s, id, key, x) <==>
              && m != []
              && (|| (Latest(m).publicKey == key && ActiveAt(Latest(m), x))
                  || (|m| == 2
                      && var d := if Latest(m) == m[0] then m[1] else m[0];
                         d.publicKey == key && ActiveAt(d, x)))
  {
    var m := Matches(s, id);
    assert Shape(m);
    if |m| == 1 {
      InForceOfOne(s, id, m[0], key, x);
    } else if |m| == 2 {
      assert m == [m[0], m[1]] && Latest(m) in {m[0], m[1]};
      InForceOfTwo(s, id, m[0], m[1], key, x);
    }
  }

  /** The height and key that show a change. */
  lemma {:induction false} RewrittenKey(s: State, tx: GovernanceTx, height: nat, t: State) returns (key: bytes, x: nat)
    requires WellFormed(s) && Effect(s, tx, height, t) && RewritesPast(s, tx, height)
    ensures x <= height
    ensures KeyInForce(s, tx.curatorId, key, x) != KeyInForce(t, tx.curatorId, key, x)
  {
    var m := Matches(s, tx.curatorId);
    var current := Latest(m);
    assert Shape(m);
    var d := if |m| == 2 && current == m[0] then m[1] else m[0];
    if |m| == 2 && EverInForce(d, height) {
      key, x := d.publicKey, d.activation;
      OthersLackKey(s, tx.curatorId, current);
      TwoAreDistinct(s, tx.curatorId);
    } else {
      key, x := current.publicKey, Max(current.revocation.value, current.activation);
      if |m| == 2 {
        TwoAreDistinct(s, tx.curatorId);
      }
    }
    InForceBefore(s, tx.curatorId, key, x);
    InForceAfter(s, tx, height, t, key, x);
  }

  lemma {:induction false} TwoAreDistinct(s: State, id: bytes)
    requires WellFormed(s) && |Matches(s, id)| == 2
    ensures var m := Matches(s, id);
            m[0].publicKey != m[1].publicKey && Latest(m) in {m[0], m[1]}
  {
    var m := Matches(s, id);
    assert Shape(m);
    assert m == [m[0], m[1]] && Latest(m) in [m[0], m[1]];
    assert m[0] in m && m[1] in m;
    OthersLackKey(s, id, m[0]);
    assert m[1] in s.records;
  }

  /** An accepted transaction leaves the past alone, for every curator, exactly when it is not one of those two. */
  lemma {:induction false} PastIsKeptExactly(ctx: Context, s: State, tx: GovernanceTx, height: nat)
    requires WellFormed(s) && Apply(ctx, s, tx, height).Ok?
    ensures (forall id :: SamePast(s, Apply(ctx, s, tx, height).value, id, height)) <==> !RewritesPast(s, tx, height)
  {
    AppliedHasEffect(ctx, s, tx, height);
    EffectOnThePast(s, tx, height, Apply(ctx, s, tx, height).value);
  }

  lemma {:induction false} EffectOnThePast(s: State, tx: GovernanceTx, height: nat, t: State)
    requires WellFormed(s) && Effect(s, tx, height, t)
    ensures (forall id :: SamePast(s, t, id, height)) <==> !RewritesPast(s, tx, height)
  {
    if RewritesPast(s, tx, height) {
      var key, x := RewrittenKey(s, tx, height, t);
      assert !SamePast(s, t, tx.curatorId, height);
    } else {
      forall id ensures SamePast(s, t, id, height) {
        forall key, x: nat | x <= height ensures KeyInForce(s, id, key, x) <==> KeyInForce(t, id, key, x) {
          if id == tx.curatorId {
            OwnPastIsKept(s, tx, height, t, key, x);
          } else {
            EffectOnMatches(s, tx, height, t, id);
          }
        }
      }
    }
  }

  lemma {:induction false} OwnPastIsKept(s: State, tx: GovernanceTx, height: nat, t: State, key: bytes, x: nat)
    requires WellFormed(s) && Effect(s, tx, height, t) && !RewritesPast(s, tx, height) && x <= height
    ensures KeyInForce(s, tx.curatorId, key, x) <==> KeyInForce(t, tx.curatorId, key, x)
  {
    assert Shape(Matches(s, tx.curatorId));
    InForceBefore(s, tx.curatorId, key, x);
    InForceAfter(s, tx, height, t, key, x);
  }

  // ---------- where rotations reach the exceptions ----------

  lemma {:induction false} AfterRotation(ctx: Context, s: State, tx: GovernanceTx, height: nat)
    returns (retired: Record, entry: Record)
    requires tx.action.Rotate? && Apply(ctx, s, tx, height).Ok?
    ensures Matches(s, tx.curatorId) != []
    ensures Matches(Apply(ctx, s, tx, height).value, tx.curatorId) == [retired, entry]
    ensures var c := Latest(Matches(s, tx.curatorId));
            && retired.publicKey == c.publicKey && retired.activation == c.activation
            && retired.revocation == Some(tx.action.activation)
            && entry.previousKey == Some(c.publicKey) && entry.publicKey == tx.action.newPublicKey != c.publicKey
            && entry.activation == tx.action.activation && entry.revocation == None
  {
    AppliedHasEffect(ctx, s, tx, height);
    EffectOnMatches(s, tx, height, Apply(ctx, s, tx, height).value, tx.curatorId);
    var n := NewRecords(s, tx);
    retired, entry := n[0], n[1];
  }

  /**
   After every accepted rotation, until the new key comes into force: active_key_at answers None for a
   curator whose old key is in force, and key_was_valid_at claims that key also before it came into force.
   */
  lemma {:induction false} RotationReachesTheExceptions(ctx: Context, s: State, tx: GovernanceTx, height: nat, at: nat)
    requires tx.action.Rotate? && Apply(ctx, s, tx, height).Ok? && at < tx.action.activation
    ensures Matches(s, tx.curatorId) != []
    ensures var t, c := Apply(ctx, s, tx, height).value, Latest(Matches(s, tx.curatorId));
            if c.activation <= at
            then ShadowedAt(t, tx.curatorId, at) && ActiveKeyAt(t, tx.curatorId, at) == None
                 && KeyInForce(t, tx.curatorId, c.publicKey, at)
            else ClaimedEarly(t, tx.curatorId, c.publicKey, at) && KeyWasValidAt(t, tx.curatorId, c.publicKey, at)
                 && !KeyInForce(t, tx.curatorId, c.publicKey, at)
  {
    var retired, entry := AfterRotation(ctx, s, tx, height);
    PairBeforeHandover(Apply(ctx, s, tx, height).value, tx.curatorId, retired, entry, at);
  }

  lemma {:induction false} PairBeforeHandover(t: State, id: bytes, retired: Record, entry: Record, at: nat)
    requires Matches(t, id) == [retired, entry] && retired.publicKey != entry.publicKey && at < entry.activation
    requires retired.revocation == Some(entry.activation) && entry.previousKey == Some(retired.publicKey)
    ensures if retired.activation <= at
            then ShadowedAt(t, id, at) && ActiveKeyAt(t, id, at) == None && KeyInForce(t, id, retired.publicKey, at)
            else ClaimedEarly(t, id, retired.publicKey, at) && KeyWasValidAt(t, id, retired.publicKey, at)
                 && !KeyInForce(t, id, retired.publicKey, at)
  {
    var m := [retired, entry];
    assert m[1..] == [entry] && retired in m && entry in m;
    InForceOfTwo(t, id, retired, entry, retired.publicKey, at);
  }

  /** Rotating a record whose revocation has taken effect puts the revoked key back in force at past heights. */
  lemma {:induction false} RotationUndoesRevocation(ctx: Context, s: State, tx: GovernanceTx, height: nat, x: nat)
    requires WellFormed(s) && tx.action.Rotate? && Apply(ctx, s, tx, height).Ok? && x <= height
    ensures Matches(s, tx.curatorId) != []
    ensures var t, c := Apply(ctx, s, tx, height).value, Latest(Matches(s, tx.curatorId));
            c.revocation.Some? && Max(c.revocation.value, c.activation) <= x
            ==> && !KeyInForce(s, tx.curatorId, c.publicKey, x) && KeyInForce(t, tx.curatorId, c.publicKey, x)
                && RewritesPast(s, tx, height) && !SamePast(s, t, tx.curatorId, height)
  {
    var t, m := Apply(ctx, s, tx, height).value, Matches(s, tx.curatorId);
    AppliedHasEffect(ctx, s, tx, height);
    assert Shape(m);
    if |m| == 2 {
      TwoAreDistinct(s, tx.curatorId);
    }
    InForceBefore(s, tx.curatorId, Latest(m).publicKey, x);
    InForceAfter(s, tx, height, t, Latest(m).publicKey, x);
  }
}
