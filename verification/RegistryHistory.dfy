/** What holds over whole registry histories: no replay, who is active when, which fields survive. */
module RegistryHistory {
  import opened Wrappers
  import opened Bytes
  import opened Types
  import opened Sorting
  import opened Governance
  import opened Registry

  // ---------- reachable states, read by position ----------

  /**
   Every run from genesis: ids sorted, at most two records a curator, at most one active at any height, no
   shared key.
   */
  lemma {:induction false} ReachableRegistry(ctx: Context, keys: seq<bytes>, steps: seq<Step>, id: bytes, height: nat)
    requires Run(ctx, Genesis(ctx.networkId, keys, ctx.threshold), steps).Ok?
    ensures var rs := Run(ctx, Genesis(ctx.networkId, keys, ctx.threshold), steps).value.records;
            && (forall i, j :: 0 <= i < j < |rs| ==> LexLeq(rs[i].curatorId, rs[j].curatorId))
            && (forall i, j :: 0 <= i < j < |rs| ==> rs[i].publicKey != rs[j].publicKey)
            && (forall i, j :: 0 <= i < j < |rs| && rs[i].curatorId == rs[j].curatorId ==> Handover(rs[i], rs[j]))
            && (forall i, j :: 0 <= i < j < |rs| && rs[i].curatorId == id == rs[j].curatorId ==>
                  !(ActiveAt(rs[i], height) && ActiveAt(rs[j], height)))
            && |Filter(rs, HasId(id))| <= 2
  {
    var genesis := Genesis(ctx.networkId, keys, ctx.threshold);
    assert WellFormed(genesis);
    ReachableStatesAreWellFormed(ctx, genesis, steps);
    var s := Run(ctx, genesis, steps).value;
    var rs := s.records;
    assert Shape(Matches(s, id));
    forall i, j | 0 <= i < j < |rs| ensures rs[i].publicKey != rs[j].publicKey {
      AtMostOneByPosition(rs, HasKey(rs[i].publicKey));
      assert HasKey(rs[i].publicKey)(rs[i]);
    }
    forall i, j | 0 <= i < j < |rs| && rs[i].curatorId == rs[j].curatorId ensures Handover(rs[i], rs[j]) {
      SameCurator(s, i, j);
    }
  }

  lemma {:induction false} SameCurator(s: State, i: nat, j: nat)
    requires WellFormed(s) && i < j < |s.records| && s.records[i].curatorId == s.records[j].curatorId
    ensures Matches(s, s.records[i].curatorId) == [s.records[i], s.records[j]]
    ensures Handover(s.records[i], s.records[j])
  {
    var rs, p := s.records, HasId(s.records[i].curatorId);
    assert rs == rs[..i] + ([rs[i]] + (rs[i + 1..j] + ([rs[j]] + rs[j + 1..])));
    FilterConcat(rs[..i], [rs[i]] + (rs[i + 1..j] + ([rs[j]] + rs[j + 1..])), p);
    FilterConcat([rs[i]], rs[i + 1..j] + ([rs[j]] + rs[j + 1..]), p);
    FilterConcat(rs[i + 1..j], [rs[j]] + rs[j + 1..], p);
    FilterConcat([rs[j]], rs[j + 1..], p);
    assert Shape(Matches(s, rs[i].curatorId));
  }

  // ---------- no transaction is applied twice ----------

  lemma {:induction false} DepthOfMember(rs: seq<Record>, r: Record)
    requires r in rs
    ensures RecordDepth(r) <= RecordsDepth(rs)
  {
    if r != rs[0] {
      DepthOfMember(rs[1..], r);
    }
  }

  ghost predicate NamesTx(r: Record, txid: Hash) {
    r.registrationTxid == txid || r.latestRotationTxid == Some(txid)
  }

  /**
   An applied transaction commits to the state before it, is recorded in the state after it, and the hash
   depth grows.
   */
  lemma {:induction false} ApplyDeepens(ctx: Context, s: State, tx: GovernanceTx, height: nat)
    requires Apply(ctx, s, tx, height).Ok?
    ensures tx.previousRoot == RegistryRoot(s)
    ensures exists r :: r in Apply(ctx, s, tx, height).value.records && NamesTx(r, TxidOf(tx))
    ensures RecordsDepth(Apply(ctx, s, tx, height).value.records) > RecordsDepth(s.records)
  {
    var entry := AppliedTxIsRecorded(ctx, s, tx, height);
    NamingDeepens(s, tx, entry);
    DepthOfMember(Apply(ctx, s, tx, height).value.records, entry);
  }

  lemma {:induction false} NamingDeepens(s: State, tx: GovernanceTx, entry: Record)
    requires tx.previousRoot == RegistryRoot(s) && NamesTx(entry, TxidOf(tx))
    ensures RecordDepth(entry) > RecordsDepth(s.records)
  {
    assert Depth(TxidOf(tx)) == 2 + RecordsDepth(s.records);
  }

  lemma {:induction false} AppliedTxIsRecorded(ctx: Context, s: State, tx: GovernanceTx, height: nat)
    returns (entry: Record)
    requires Apply(ctx, s, tx, height).Ok?
    ensures tx.previousRoot == RegistryRoot(s)
    ensures entry in Apply(ctx, s, tx, height).value.records && NamesTx(entry, TxidOf(tx))
  {
    match tx.action {
      case Register(_, _) =>
        entry := CuratorRecord(tx.curatorId, tx.publicKey, tx.action.activation, None, None, TxidOf(tx), None);
        SortPermutes(s.records + [entry], IdLeq);
        assert entry in multiset(Sort(s.records + [entry], IdLeq));
      case Rotate(_, _, _, _) =>
        var retired;
        retired, entry := Rotated(Latest(Matches(s, tx.curatorId)), tx);
        InReplaced(s.records, tx.curatorId, [retired, entry], entry);
      case Revoke(_, _, _) =>
        entry := Latest(Matches(s, tx.curatorId)).(revocation := Some(tx.action.revocation),
                                                   latestRotationTxid := Some(TxidOf(tx)));
        InReplaced(s.records, tx.curatorId, [entry], entry);
    }
  }

  lemma {:induction false} InReplaced(records: seq<Record>, id: bytes, added: seq<Record>, entry: Record)
    requires entry in added
    ensures entry in Replace(records, id, added)
  {
    SortPermutes(Filter(records, NotId(id)) + added, IdLeq);
    assert entry in multiset(Replace(records, id, added));
  }

  lemma {:induction false} RunDeepens(ctx: Context, s: State, steps: seq<Step>)
    requires Run(ctx, s, steps).Ok?
    ensures RecordsDepth(Run(ctx, s, steps).value.records) >= RecordsDepth(s.records) + |steps|
    decreases |steps|
  {
    if steps != [] {
      ApplyDeepens(ctx, s, steps[0].tx, steps[0].height);
      RunDeepens(ctx, Apply(ctx, s, steps[0].tx, steps[0].height).value, steps[1..]);
    }
  }

  lemma {:induction false} RunSplits(ctx: Context, s: State, a: seq<Step>, b: seq<Step>)
    ensures Run(ctx, s, a + b) == match Run(ctx, s, a) case Err(e) => Err(e) case Ok(t) => Run(ctx, t, b)
    decreases |a|
  {
    if a == [] {
      assert a + b == b;
    } else {
      assert (a + b)[1..] == a[1..] + b;
      var first := Apply(ctx, s, a[0].tx, a[0].height);
      if first.Ok? {
        RunSplits(ctx, first.value, a[1..], b);
      }
    }
  }

  /**
   In any successful run no state recurs, and no two steps carry the same transaction, even
   with different signatures: the signed bodies already differ.
   */
  lemma {:induction false} NothingIsAppliedTwice(ctx: Context, s: State, steps: seq<Step>, i: nat, j: nat)
    requires Run(ctx, s, steps).Ok? && i < j <= |steps|
    ensures Run(ctx, s, steps[..i]).Ok? && Run(ctx, s, steps[..j]).Ok?
    ensures Run(ctx, s, steps[..i]).value != Run(ctx, s, steps[..j]).value
    ensures j < |steps| ==> Body(steps[i].tx) != Body(steps[j].tx)
  {
    assert steps == steps[..i] + steps[i..] && steps[..j] == steps[..i] + steps[i..j]
           && steps == steps[..j] + steps[j..];
    RunSplits(ctx, s, steps[..i], steps[i..]);
    RunSplits(ctx, s, steps[..i], steps[i..j]);
    RunSplits(ctx, s, steps[..j], steps[j..]);
    var before, after := Run(ctx, s, steps[..i]).value, Run(ctx, s, steps[..j]).value;
    RunDeepens(ctx, before, steps[i..j]);
    ApplyDeepens(ctx, before, steps[i].tx, steps[i].height);
    if j < |steps| {
      ApplyDeepens(ctx, after, steps[j].tx, steps[j].height);
    }
  }

  // ---------- active keys ----------

  /** The key in force at a height, whichever record holds it. */
  ghost predicate KeyInForce(s: State, id: bytes, key: bytes, height: nat) {
    exists r :: r in Matches(s, id) && r.publicKey == key && ActiveAt(r, height)
  }

  /** A height the latest record does not cover although the curator's other record does. */
  ghost predicate ShadowedAt(s: State, id: bytes, height: nat) {
    var m := Matches(s, id);
    |m| == 2 && if m[0].activation < m[1].activation then m[0].activation <= height < m[1].activation
                else m[1].activation <= height
  }

  /**
   active_key_at is right exactly outside the shadowed heights, where it answers None for a curator whose
   key is in force.
   */
  lemma {:induction false} ActiveKeyAtIsExact(s: State, id: bytes, height: nat)
    requires WellFormed(s)
    ensures (forall key :: ActiveKeyAt(s, id, height) == Some(key) <==> KeyInForce(s, id, key, height))
            <==> !ShadowedAt(s, id, height)
    ensures ShadowedAt(s, id, height) ==> ActiveKeyAt(s, id, height) == None
  {
    var m := Matches(s, id);
    assert Shape(m);
    if |m| == 1 {
      assert m == [m[0]];
    } else if |m| == 2 {
      assert m == [m[0], m[1]] && Latest(m[1..]) == m[1];
      assert m[0] in m && m[1] in m;
      if ShadowedAt(s, id, height) {
        var holder := if m[0].activation < m[1].activation then m[0] else m[1];
        assert holder in m && ActiveAt(holder, height);
        assert KeyInForce(s, id, holder.publicKey, height);
      }
    }
  }

  /** A record speaks for its own key while it is in force, and for its predecessor's at any height before it. */
  predicate Vouches(r: Record, key: bytes, height: nat) {
    (r.publicKey == key && ActiveAt(r, height)) || (r.previousKey == Some(key) && height < r.activation)
  }

  predicate KeyWasValidAt(s: State, id: bytes, key: bytes, height: nat) {
    exists r :: r in Matches(s, id) && Vouches(r, key, height)
  }

  /** A height before the key's own record comes into force, or before the one record that remembers it. */
  ghost predicate ClaimedEarly(s: State, id: bytes, key: bytes, height: nat) {
    var m := Matches(s, id);
    if |m| == 2 then
      && height < m[0].activation
      && (|| (key == m[0].publicKey && height < m[1].activation)
          || (m[0].previousKey == Some(key) && !(key == m[1].publicKey && m[1].activation <= height)))
    else
      |m| == 1 && m[0].previousKey == Some(key) && height < m[0].activation
  }

  /**
   key_was_valid_at agrees with the records of the state it is asked of exactly outside those heights, where
   it vouches for a key none of them has in force.
   */
  lemma {:induction false} KeyWasValidAtIsExact(s: State, id: bytes, key: bytes, height: nat)
    requires WellFormed(s)
    ensures (KeyWasValidAt(s, id, key, height) <==> KeyInForce(s, id, key, height))
            <==> !ClaimedEarly(s, id, key, height)
    ensures ClaimedEarly(s, id, key, height) ==> KeyWasValidAt(s, id, key, height)
  {
    var m := Matches(s, id);
    assert Shape(m);
    if |m| == 1 {
      assert m == [m[0]];
    } else if |m| == 2 {
      assert m == [m[0], m[1]];
      assert m[0] in m && m[1] in m;
      OthersLackKey(s, id, m[0]);
      assert m[1] != m[0] && m[1].publicKey != m[0].publicKey;
    }
  }

  /** An accepted rotation leaves exactly two records of its curator: the retired one and the new one. */
  lemma {:induction false} RotationLeavesAPair(ctx: Context, s: State, tx: GovernanceTx, height: nat)
    returns (retired: Record, entry: Record)
    requires tx.action.Rotate? && Apply(ctx, s, tx, height).Ok?
    ensures Matches(Apply(ctx, s, tx, height).value, tx.curatorId) == [retired, entry]
    ensures Handover(retired, entry) && entry.publicKey == tx.action.newPublicKey != retired.publicKey
    ensures entry.activation == tx.action.activation
  {
    retired, entry := Rotated(Latest(Matches(s, tx.curatorId)), tx);
    ReplaceFacts(s.records, tx.curatorId, [retired, entry]);
  }

  /** A rotation puts its curator in force from its activation on, whether or not the curator had been revoked. */
  lemma {:induction false} RotationRestoresCurator(ctx: Context, s: State, tx: GovernanceTx, height: nat, at: nat)
    requires WellFormed(s) && tx.action.Rotate? && Apply(ctx, s, tx, height).Ok?
    ensures KeyInForce(Apply(ctx, s, tx, height).value, tx.curatorId, tx.action.newPublicKey, at)
            <==> at >= tx.action.activation
  {
    var retired, entry := RotationLeavesAPair(ctx, s, tx, height);
    assert entry in [retired, entry];
  }

  // ---------- governance fields ----------

  /** Governance keys, threshold and network id survive a run exactly when it revokes nobody. */
  lemma {:induction false} RevocationDropsGovernanceFields(ctx: Context, s: State, steps: seq<Step>)
    requires Run(ctx, s, steps).Ok?
    ensures var t := Run(ctx, s, steps).value;
            if exists i :: 0 <= i < |steps| && steps[i].tx.action.Revoke?
            then t.governanceKeys == [] && t.threshold == 0 && t.networkId == NETWORK_ID
            else t.governanceKeys == s.governanceKeys && t.threshold == s.threshold && t.networkId == s.networkId
    decreases |steps|
  {
    if steps != [] {
      var next := Apply(ctx, s, steps[0].tx, steps[0].height).value;
      RevocationDropsGovernanceFields(ctx, next, steps[1..]);
      forall i | 0 < i < |steps| ensures steps[i] == steps[1..][i - 1] {}
      if steps[0].tx.action.Revoke? && !exists i :: 0 <= i < |steps[1..]| && steps[1..][i].tx.action.Revoke? {
        assert Run(ctx, s, steps) == Run(ctx, next, steps[1..]);
      }
    }
  }
}
