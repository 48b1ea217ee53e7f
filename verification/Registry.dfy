/**
 The curator registry: the reducer that applies governance transactions, and what every
 state it can reach looks like.
 */
module Registry {
  import opened Wrappers
  import opened Bytes
  import opened Types
  import opened Sorting
  import opened Governance

  type State = RegistryState<Hash>
  type Record = CuratorRecord<Hash>

  /** Which exception class a refusal raises: the ledger treats both alike, fork choice does not. */
  datatype Fault = RegistryFault | GovernanceFault

  // ---------- records and queries ----------

  predicate IdLeq<D>(a: CuratorRecord<D>, b: CuratorRecord<D>) {
    LexLeq(a.curatorId, b.curatorId)
  }

  function HasId(id: bytes): Record -> bool {
    (r: Record) => r.curatorId == id
  }

  function NotId(id: bytes): Record -> bool {
    (r: Record) => r.curatorId != id
  }

  function HasKey(key: bytes): Record -> bool {
    (r: Record) => r.publicKey == key
  }

  function Matches(s: State, id: bytes): seq<Record> {
    Filter(s.records, HasId(id))
  }

  predicate ActiveAt(r: Record, height: nat) {
    height >= r.activation && (r.revocation.None? || height < r.revocation.value)
  }

  /** Python's max: the first record with the largest activation height. */
  function Latest(m: seq<Record>): (r: Record)
    requires m != []
    ensures r in m
  {
    if |m| == 1 then m[0]
    else
      var rest := Latest(m[1..]);
      if m[0].activation >= rest.activation then m[0] else rest
  }

  function ActiveKeyAt(s: State, id: bytes, height: nat): Option<bytes> {
    var m := Matches(s, id);
    if m == [] || !ActiveAt(Latest(m), height) then None else Some(Latest(m).publicKey)
  }

  // ---------- the reducer ----------

  function Genesis(networkId: bytes, keys: seq<bytes>, threshold: nat): State {
    RegistryState([], GOVERNANCE_SCHEMA_VERSION, networkId, Sort(keys, LexLeq), threshold)
  }

  function Apply(ctx: Context, s: State, tx: GovernanceTx, height: nat): Result<State, Fault> {
    if !Authorised(ctx, SigningHash(ctx.networkId, Body(tx)), tx.signatures) then Err(GovernanceFault)
    else
      match tx.action
      case Register(activation, _) => ApplyRegister(s, tx, height)
      case Rotate(_, _, _, _) => ApplyRotate(ctx, s, tx, height)
      case Revoke(_, _, _) => ApplyRevoke(ctx, s, tx, height)
  }

  function ApplyRegister(s: State, tx: GovernanceTx, height: nat): Result<State, Fault>
    requires tx.action.Register?
  {
    if tx.action.activation <= height then Err(RegistryFault)
    else if tx.previousRoot != RegistryRoot(s) then Err(RegistryFault)
    else if exists r :: r in s.records && (r.curatorId == tx.curatorId || r.publicKey == tx.publicKey)
    then Err(RegistryFault)
    else
      var added := CuratorRecord(tx.curatorId, tx.publicKey, tx.action.activation, None, None, TxidOf(tx), None);
      Ok(s.(records := Sort(s.records + [added], IdLeq)))
  }

  function CuratorSigned(ctx: Context, record: Record, tx: GovernanceTx): bool
    requires !tx.action.Register?
  {
    ctx.verify(record.publicKey, SigningHash(NETWORK_ID, Body(tx)), tx.action.curatorSignature)
  }

  function ApplyRotate(ctx: Context, s: State, tx: GovernanceTx, height: nat): Result<State, Fault>
    requires tx.action.Rotate?
  {
    var m := Matches(s, tx.curatorId);
    if tx.action.activation <= height then Err(RegistryFault)
    else if tx.previousRoot != RegistryRoot(s) then Err(RegistryFault)
    else if m == [] || Latest(m).publicKey != tx.publicKey then Err(RegistryFault)
    else
      var current := Latest(m);
      if !CuratorSigned(ctx, current, tx) then Err(RegistryFault)
      else if tx.action.newPublicKey == current.publicKey then Err(RegistryFault)
      else if exists r :: r in s.records && r.publicKey == tx.action.newPublicKey && r.curatorId != tx.curatorId
      then Err(RegistryFault)
      else
        var retired := current.(revocation := Some(tx.action.activation), latestRotationTxid := Some(TxidOf(tx)));
        var added := CuratorRecord(tx.curatorId, tx.action.newPublicKey, tx.action.activation, None,
                                   Some(current.publicKey), current.registrationTxid, Some(TxidOf(tx)));
        Ok(s.(records := Replace(s.records, tx.curatorId, [retired, added])))
  }

  function ApplyRevoke(ctx: Context, s: State, tx: GovernanceTx, height: nat): Result<State, Fault>
    requires tx.action.Revoke?
  {
    var m := Matches(s, tx.curatorId);
    if tx.action.revocation <= height then Err(RegistryFault)
    else if tx.previousRoot != RegistryRoot(s) then Err(RegistryFault)
    else if m == [] || Latest(m).publicKey != tx.publicKey then Err(RegistryFault)
    else
      var current := Latest(m);
      if !CuratorSigned(ctx, current, tx) then Err(RegistryFault)
      else if current.revocation.Some? then Err(RegistryFault)
      else if tx.action.revocation < current.activation then Err(RegistryFault)
      else
        var revoked := current.(revocation := Some(tx.action.revocation), latestRotationTxid := Some(TxidOf(tx)));
        // The source builds the result from the records alone: every other field falls back to its default.
        Ok(RegistryState(Replace(s.records, tx.curatorId, [revoked]), GOVERNANCE_SCHEMA_VERSION, NETWORK_ID, [], 0))
  }

  /** All records of one curator replaced by others, the list sorted again. */
  function Replace(records: seq<Record>, id: bytes, added: seq<Record>): seq<Record> {
    Sort(Filter(records, NotId(id)) + added, IdLeq)
  }

  // ---------- runs ----------

  datatype Step = Step(tx: GovernanceTx, height: nat)

  function Run(ctx: Context, s: State, steps: seq<Step>): Result<State, Fault>
    decreases |steps|
  {
    if steps == [] then Ok(s)
    else
      match Apply(ctx, s, steps[0].tx, steps[0].height)
      case Err(e) => Err(e)
      case Ok(next) => Run(ctx, next, steps[1..])
  }

  // ---------- the invariant ----------

  /** The second record takes over exactly where the first one ends. */
  predicate Handover(former: Record, latter: Record) {
    && former.revocation == Some(latter.activation)
    && latter.revocation == None
    && latter.previousKey == Some(former.publicKey)
    && latter.registrationTxid == former.registrationTxid
    && latter.latestRotationTxid == former.latestRotationTxid
    && latter.latestRotationTxid.Some?
  }

  predicate Shape(m: seq<Record>) {
    && |m| <= 2
    && (|m| == 1 && m[0].revocation.Some? ==> m[0].activation <= m[0].revocation.value)
    && (|m| == 2 ==> Handover(m[0], m[1]))
  }

  ghost predicate WellFormed(s: State) {
    && s.governanceVersion == GOVERNANCE_SCHEMA_VERSION
    && SortedBy(s.records, IdLeq)
    && (forall id :: Shape(Matches(s, id)))
    && (forall key :: AtMostOne(s.records, HasKey(key)))
  }

  lemma {:induction false} ApplyKeepsWellFormed(ctx: Context, s: State, tx: GovernanceTx, height: nat)
    requires WellFormed(s) && Apply(ctx, s, tx, height).Ok?
    ensures WellFormed(Apply(ctx, s, tx, height).value)
  {
    var t := Apply(ctx, s, tx, height).value;
    match tx.action
    case Register(_, _) =>
      var entry := CuratorRecord(tx.curatorId, tx.publicKey, tx.action.activation, None, None, TxidOf(tx), None);
      FilterKeepsAll(s.records, NotId(tx.curatorId));
      assert t.records == Replace(s.records, tx.curatorId, [entry]);
      OneRecordForAnother(s, tx.curatorId, entry, t);
    case Rotate(_, _, _, _) =>
      var current := Latest(Matches(s, tx.curatorId));
      OthersLackKey(s, tx.curatorId, current);
      var retired, entry := Rotated(current, tx);
      TwoRecordsForAnother(s, tx.curatorId, retired, entry, t);
    case Revoke(_, _, _) =>
      var current := Latest(Matches(s, tx.curatorId));
      OthersLackKey(s, tx.curatorId, current);
      var revoked := current.(revocation := Some(tx.action.revocation), latestRotationTxid := Some(TxidOf(tx)));
      OneRecordForAnother(s, tx.curatorId, revoked, t);
  }

  /** The two records a rotation leaves for its curator. */
  lemma {:induction false} Rotated(current: Record, tx: GovernanceTx) returns (retired: Record, entry: Record)
    requires tx.action.Rotate? && current.curatorId == tx.curatorId
    ensures retired == current.(revocation := Some(tx.action.activation), latestRotationTxid := Some(TxidOf(tx)))
    ensures entry == CuratorRecord(tx.curatorId, tx.action.newPublicKey, tx.action.activation, None,
                                   Some(current.publicKey), current.registrationTxid, Some(TxidOf(tx)))
    ensures Handover(retired, entry) && retired.curatorId == entry.curatorId == tx.curatorId
  {
    retired := current.(revocation := Some(tx.action.activation), latestRotationTxid := Some(TxidOf(tx)));
    entry := CuratorRecord(tx.curatorId, tx.action.newPublicKey, tx.action.activation, None,
                           Some(current.publicKey), current.registrationTxid, Some(TxidOf(tx)));
  }

  lemma {:induction false} OneRecordForAnother(s: State, id: bytes, entry: Record, t: State)
    requires WellFormed(s) && t.records == Replace(s.records, id, [entry])
             && t.governanceVersion == GOVERNANCE_SCHEMA_VERSION
    requires entry.curatorId == id && (entry.revocation.Some? ==> entry.activation <= entry.revocation.value)
    requires forall r :: r in s.records && r.publicKey == entry.publicKey ==> r.curatorId == id
    ensures WellFormed(t)
  {
    ReplaceKeepsWellFormed(s, id, [entry], t);
  }

  lemma {:induction false} TwoRecordsForAnother(s: State, id: bytes, retired: Record, entry: Record, t: State)
    requires WellFormed(s) && t.records == Replace(s.records, id, [retired, entry])
             && t.governanceVersion == GOVERNANCE_SCHEMA_VERSION
    requires retired.curatorId == entry.curatorId == id && Handover(retired, entry)
             && retired.publicKey != entry.publicKey
    requires forall r ::
               r in s.records && (r.publicKey == entry.publicKey || r.publicKey == retired.publicKey)
               ==> r.curatorId == id
    ensures WellFormed(t)
  {
    forall key ensures AtMostOne([retired, entry], HasKey(key)) {
      AtMostOneByPosition([retired, entry], HasKey(key));
    }
    ReplaceKeepsWellFormed(s, id, [retired, entry], t);
  }

  /** No other curator holds the key of one of this curator's records. */
  lemma {:induction false} OthersLackKey(s: State, id: bytes, held: Record)
    requires WellFormed(s) && held in Matches(s, id)
    ensures forall r :: r in s.records && r.publicKey == held.publicKey ==> r == held
  {
    AtMostOneByPosition(s.records, HasKey(held.publicKey));
    var i :| 0 <= i < |s.records| && s.records[i] == held;
    forall r | r in s.records && r.publicKey == held.publicKey ensures r == held {
      var j :| 0 <= j < |s.records| && s.records[j] == r;
      assert HasKey(held.publicKey)(s.records[i]) && HasKey(held.publicKey)(s.records[j]);
    }
  }

  lemma {:induction false} ReplaceFacts(records: seq<Record>, id: bytes, added: seq<Record>)
    requires forall r :: r in added ==> r.curatorId == id
    ensures SortedBy(Replace(records, id, added), IdLeq)
    ensures Filter(Replace(records, id, added), HasId(id)) == added
    ensures forall other ::
              other != id ==> Filter(Replace(records, id, added), HasId(other)) == Filter(records, HasId(other))
    ensures multiset(Replace(records, id, added)) == multiset(Filter(records, NotId(id)) + added)
  {
    var kept := Filter(records, NotId(id));
    IdLeqIsTotal();
    SortSorts(kept + added, IdLeq);
    SortPermutes(kept + added, IdLeq);
    FilterOneId(records, id, added, id);
    FilterFilter(records, NotId(id), HasId(id));
    FilterKeepsAll(added, HasId(id));
    forall other | other != id
      ensures Filter(Replace(records, id, added), HasId(other)) == Filter(records, HasId(other))
    {
      FilterOneId(records, id, added, other);
      FilterFilter(records, NotId(id), HasId(other));
      FilterFilter(added, HasId(id), HasId(other));
      FilterKeepsAll(added, HasId(id));
    }
  }

  lemma {:induction false} FilterOneId(records: seq<Record>, id: bytes, added: seq<Record>, other: bytes)
    ensures Filter(Replace(records, id, added), HasId(other))
            == Filter(Filter(records, NotId(id)), HasId(other)) + Filter(added, HasId(other))
  {
    LexTotal(other, other);
    SortIsStable(Filter(records, NotId(id)) + added, IdLeq, HasId(other));
    FilterConcat(Filter(records, NotId(id)), added, HasId(other));
  }

  lemma {:induction false} IdLeqIsTotal()
    ensures TotalPreorder<Record>(IdLeq)
  {
    forall a: Record, b: Record ensures IdLeq(a, b) || IdLeq(b, a) {
      LexTotal(a.curatorId, b.curatorId);
    }
    forall a: Record, b: Record, c: Record | IdLeq(a, b) && IdLeq(b, c) ensures IdLeq(a, c) {
      LexTransitive(a.curatorId, b.curatorId, c.curatorId);
    }
  }

  lemma {:induction false} ReplaceKeepsWellFormed(s: State, id: bytes, added: seq<Record>, t: State)
    requires WellFormed(s) && t.records == Replace(s.records, id, added)
             && t.governanceVersion == GOVERNANCE_SCHEMA_VERSION
    requires Shape(added) && forall r :: r in added ==> r.curatorId == id
    requires forall key :: AtMostOne(added, HasKey(key))
    requires forall r, f :: r in s.records && f in added && r.publicKey == f.publicKey ==> r.curatorId == id
    ensures WellFormed(t)
  {
    ReplaceFacts(s.records, id, added);
    forall key ensures AtMostOne(t.records, HasKey(key)) {
      KeyStaysSingle(s.records, id, added, key);
    }
    forall other ensures Shape(Matches(t, other)) {
      assert Shape(Matches(s, other));
    }
  }

  lemma {:induction false} KeyStaysSingle(records: seq<Record>, id: bytes, added: seq<Record>, key: bytes)
    requires AtMostOne(records, HasKey(key)) && AtMostOne(added, HasKey(key))
    requires forall r, f :: r in records && f in added && r.publicKey == f.publicKey ==> r.curatorId == id
    ensures AtMostOne(Replace(records, id, added), HasKey(key))
  {
    var kept := Filter(records, NotId(id));
    SortPermutes(kept + added, IdLeq);
    FilterCount(Replace(records, id, added), kept + added, HasKey(key));
    FilterConcat(kept, added, HasKey(key));
    FilterTwiceShrinks(records, NotId(id), HasKey(key));
    if Filter(added, HasKey(key)) != [] {
      assert Filter(added, HasKey(key))[0] in added;
      FilterNone(kept, HasKey(key));
    }
  }

  /** Every state a run reaches from genesis is well formed. */
  lemma {:induction false} ReachableStatesAreWellFormed(ctx: Context, s: State, steps: seq<Step>)
    requires WellFormed(s) && Run(ctx, s, steps).Ok?
    ensures WellFormed(Run(ctx, s, steps).value)
    decreases |steps|
  {
    if steps != [] {
      ApplyKeepsWellFormed(ctx, s, steps[0].tx, steps[0].height);
      ReachableStatesAreWellFormed(ctx, Apply(ctx, s, steps[0].tx, steps[0].height).value, steps[1..]);
    }
  }
}
