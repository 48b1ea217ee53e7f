/** The ledger: admitting blocks one at a time, replaying the registry, and validating a whole chain. */
module Chain {
  import opened Wrappers
  import opened Bytes
  import opened Types
  import opened Sorting
  import opened Governance
  import opened Registry
  import opened RegistryHistory
  import opened MedianTime
  import opened Difficulty
  import opened Blocks

  const PLACEHOLDER_KEYS: seq<bytes> :=
    [seq(32, _ => 0x00 as byte), seq(32, _ => 0x11 as byte), seq(32, _ => 0x22 as byte)]

  function Timestamps(chain: seq<Block>): (r: seq<int>)
    ensures |r| == |chain|
  {
    seq(|chain|, i requires 0 <= i < |chain| => chain[i].header.timestamp)
  }

  function MedianBefore(chain: seq<Block>, height: nat): int {
    MedianPastTime(Timestamps(chain), height)
  }

  // ---------- the two judgements ----------

  predicate MatchesIdentity(rules: Rules, genesis: Block) {
    && genesis.header.prevHash == ZERO_HASH
    && genesis.header.version == PROTOCOL_VERSION
    && genesis.header == rules.genesisHeader
  }

  predicate IdentityHolds(rules: Rules, genesis: Block) {
    && MatchesIdentity(rules, genesis)
    && RegistryRoot(GenesisState(rules.ctx)) == rules.genesisRegistryRoot
    && (rules.alpha || Sort(rules.ctx.keys, LexLeq) != Sort(PLACEHOLDER_KEYS, LexLeq))
  }

  predicate Linked(chain: seq<Block>, i: nat)
    requires 0 < i < |chain|
  {
    chain[i].header.prevHash == BlockHash(chain[i - 1])
  }

  /** What admission asks of a block offered on top of a chain at time `now`. */
  predicate Admissible(rules: Rules, chain: seq<Block>, b: Block, now: int)
    requires chain != []
  {
    var height := |chain|;
    var expected := ExpectedTargetAt(chain, height);
    var before := StateAfter(rules.ctx, chain, height - 1);
    && b.header.prevHash == BlockHash(chain[height - 1])
    && b.header.target == expected
    && b.header.version == PROTOCOL_VERSION
    && before.Ok?
    && b.header.registryRoot == RegistryRoot(before.value)
    && Verify(rules, b, Some(now), false, Some(MedianBefore(chain, height)), Some(expected), Some(rules.validator))
    && ApplyAll(rules.ctx, before.value, b.transactions, height).Ok?
  }

  /** What full validation asks of the block at height i. */
  predicate ValidAt(rules: Rules, chain: seq<Block>, i: nat)
    requires 0 < i < |chain|
  {
    var expected := ExpectedTargetAt(chain, i);
    var median := MedianBefore(chain, i);
    var before := StateAfter(rules.ctx, chain, i - 1);
    && Linked(chain, i)
    && chain[i].header.target == expected
    && chain[i].header.timestamp > median
    && Verify(rules, chain[i], None, false, Some(median), Some(expected), Some(rules.validator))
    && before.Ok?
    && chain[i].header.registryRoot == RegistryRoot(before.value)
    && ApplyAll(rules.ctx, before.value, chain[i].transactions, i).Ok?
  }

  predicate GenesisValid(rules: Rules, genesis: Block) {
    MatchesIdentity(rules, genesis) && Verify(rules, genesis, None, true, None, None, None)
  }

  ghost predicate ValidChain(rules: Rules, chain: seq<Block>) {
    && chain != [] && GenesisValid(rules, chain[0])
    && forall i :: 0 < i < |chain| ==> ValidAt(rules, chain, i)
  }

  /** Every block above the first was admissible, at some time, on the blocks below it. */
  ghost predicate Grown(rules: Rules, chain: seq<Block>) {
    chain != [] && forall i :: 0 < i < |chain| ==> AdmittedAt(rules, chain, i)
  }

  ghost predicate AdmittedAt(rules: Rules, chain: seq<Block>, i: nat)
    requires 0 < i < |chain|
  {
    exists now :: Admissible(rules, chain[..i], chain[i], now)
  }

  /** The cache a replay from genesis fills: one state per height. */
  ghost predicate CacheIsReplay(rules: Rules, chain: seq<Block>, cache: map<nat, State>) {
    CachedBelow(rules, chain, cache, |chain|)
  }

  ghost predicate CachedBelow(rules: Rules, chain: seq<Block>, cache: map<nat, State>, height: nat)
    requires height <= |chain|
  {
    && (forall h :: h in cache ==> h < height)
    && (forall h :: 0 <= h < height ==> CachedAt(rules, chain, cache, h))
  }

  predicate CachedAt(rules: Rules, chain: seq<Block>, cache: map<nat, State>, h: nat)
    requires h < |chain|
  {
    h in cache && StateAfter(rules.ctx, chain, h) == Ok(cache[h])
  }

  /** No cached state contradicts the replay; heights not cached are ignored, and so is genesis. */
  predicate Undisturbed(rules: Rules, chain: seq<Block>, cache: map<nat, State>, h: nat)
    requires h < |chain|
  {
    h in cache ==> StateAfter(rules.ctx, chain, h) == Ok(cache[h])
  }

  ghost predicate CacheIsTrue(rules: Rules, chain: seq<Block>, cache: map<nat, State>) {
    forall i :: 0 < i < |chain| ==> Undisturbed(rules, chain, cache, i)
  }

  /**
   How far full validation has come: blocks below i are valid, and their states cached; the rest of the
   cache is as before.
   */
  ghost predicate Checked(rules: Rules, chain: seq<Block>, before: map<nat, State>, after: map<nat, State>, i: nat)
    requires i <= |chain|
  {
    && (forall j :: 0 < j < i ==> ValidAt(rules, chain, j))
    && (forall j :: 0 < j < i ==> Undisturbed(rules, chain, before, j))
    && (forall j :: 0 < j < i ==> CachedAt(rules, chain, after, j))
    && (forall h :: h in before ==> h in after && after[h] == before[h])
    && (forall h :: h in after ==> h in before || h < i)
  }

  lemma {:induction false} CheckedExtends(rules: Rules, chain: seq<Block>, before: map<nat, State>,
                                          after: map<nat, State>, i: nat, s: State)
    requires 0 < i < |chain| && Checked(rules, chain, before, after, i)
    requires ValidAt(rules, chain, i) && StateAfter(rules.ctx, chain, i) == Ok(s)
    requires i in after ==> after[i] == s
    ensures Checked(rules, chain, before, after[i := s], i + 1)
  {
    var filled := after[i := s];
    forall j | 0 < j < i + 1 ensures Undisturbed(rules, chain, before, j) {
      assert j == i && i in before ==> after[i] == before[i];
    }
    forall j | 0 < j < i + 1 ensures CachedAt(rules, chain, filled, j) {
      assert j < i ==> CachedAt(rules, chain, after, j);
    }
  }

  datatype LedgerFault = InvalidHeight | WrongIdentity | Refused(fault: Fault)

  // ---------- the ledger object ----------

  class Ledger {
    const rules: Rules
    var chain: seq<Block>
    var registryStates: map<nat, State>

    /** A cache filled by replay over a chain that replays. */
    ghost predicate Valid()
      reads this
    {
      chain != [] && CacheIsReplay(rules, chain, registryStates)
    }

    constructor (rules: Rules, chain: seq<Block>)
      ensures this.rules == rules && this.chain == chain && registryStates == map[]
    {
      this.rules, this.chain, registryStates := rules, chain, map[];
    }

    method ReplayRegistryStates() returns (r: Result<(), Fault>)
      requires chain != []
      modifies this`registryStates
      ensures r == match StateAfter(rules.ctx, chain, |chain| - 1) case Ok(_) => Ok(()) case Err(e) => Err(e)
      ensures r.Ok? ==> Valid()
    {
      registryStates := map[0 := GenesisState(rules.ctx)];
      for height := 1 to |chain|
        invariant CachedBelow(rules, chain, registryStates, height)
      {
        assert CachedAt(rules, chain, registryStates, height - 1);
        var next := ApplyTransactions(rules.ctx, registryStates[height - 1], chain[height].transactions, height);
        if next.Err? {
          ReplayStaysStuck(rules.ctx, chain, height, |chain| - 1);
          return Err(next.error);
        }
        ReplayExtends(rules, chain, registryStates, height, next.value);
        registryStates := registryStates[height := next.value];
      }
      assert CachedAt(rules, chain, registryStates, |chain| - 1);
      return Ok(());
    }

    method StateAt(height: int) returns (r: Result<State, LedgerFault>)
      ensures r == if height < 0 || height >= |chain| then Err(InvalidHeight)
                   else match StateAfter(rules.ctx, chain, height) case Ok(s) => Ok(s) case Err(e) => Err(Refused(e))
    {
      if height < 0 || height >= |chain| {
        return Err(InvalidHeight);
      }
      var s := Replay(rules.ctx, chain, height);
      match s {
        case Err(e) => return Err(Refused(e));
        case Ok(v) => return Ok(v);
      }
    }

    /** Admits the block exactly when it is admissible; a rejected block changes nothing. */
    method AddBlockV2(b: Block, now: int) returns (added: bool)
      requires Valid()
      modifies this
      ensures Valid()
      ensures added <==> Admissible(rules, old(chain), b, now)
      ensures chain == if added then old(chain) + [b] else old(chain)
      ensures !added ==> registryStates == old(registryStates)
      ensures added ==> forall h ::
                          h in old(registryStates)
                          ==> h in registryStates && registryStates[h] == old(registryStates)[h]
    {
      var height := |chain|;
      var expected := ExpectedTargetAt(chain, height);
      if b.header.prevHash != BlockHash(chain[height - 1]) { return false; }
      if b.header.target != expected { return false; }
      if b.header.version != PROTOCOL_VERSION { return false; }
      assert CachedAt(rules, chain, registryStates, height - 1);
      var replayed := Replay(rules.ctx, chain, height - 1);
      var previous := replayed.value;
      if b.header.registryRoot != RegistryRoot(previous) { return false; }
      var median := MedianBefore(chain, height);
      if !Verify(rules, b, Some(now), false, Some(median), Some(expected), Some(rules.validator)) { return false; }
      var next := ApplyTransactions(rules.ctx, previous, b.transactions, height);
      if next.Err? { return false; }
      CacheExtends(rules, chain, b, registryStates, next.value);
      chain, registryStates := chain + [b], registryStates[height := next.value];
      return true;
    }

    /**
     Full validation from genesis; the cache is checked against the replay and filled in, nothing in it is
     overwritten.
     */
    method ValidateChain() returns (valid: bool)
      modifies this`registryStates
      ensures valid <==> ValidChain(rules, chain) && CacheIsTrue(rules, chain, old(registryStates))
      ensures valid ==> Checked(rules, chain, old(registryStates), registryStates, |chain|)
    {
      if chain == [] { return false; }
      if !GenesisValid(rules, chain[0]) { return false; }
      for i := 1 to |chain|
        invariant Checked(rules, chain, old(registryStates), registryStates, i)
        invariant StateAfter(rules.ctx, chain, i - 1).Ok?
      {
        var recomputed := ValidateBlock(i);
        if recomputed.None? { return false; }
        if i in registryStates && registryStates[i] != recomputed.value {
          assert !Undisturbed(rules, chain, old(registryStates), i);
          return false;
        }
        CheckedExtends(rules, chain, old(registryStates), registryStates, i, recomputed.value);
        registryStates := registryStates[i := recomputed.value];
      }
      return true;
    }

    method ValidateBlock(i: nat) returns (state: Option<State>)
      requires 0 < i < |chain| && StateAfter(rules.ctx, chain, i - 1).Ok?
      ensures state.Some? <==> ValidAt(rules, chain, i)
      ensures state.Some? ==> StateAfter(rules.ctx, chain, i) == Ok(state.value)
    {
      var current, previous := chain[i], chain[i - 1];
      if current.header.prevHash != BlockHash(previous) { return None; }
      var expected := ExpectedTargetAt(chain, i);
      if current.header.target != expected { return None; }
      var median := MedianBefore(chain, i);
      if current.header.timestamp <= median { return None; }
      if !Verify(rules, current, None, false, Some(median), Some(expected), Some(rules.validator)) { return None; }
      var before := Replay(rules.ctx, chain, i - 1);
      if current.header.registryRoot != RegistryRoot(before.value) { return None; }
      var after := ApplyTransactions(rules.ctx, before.value, current.transactions, i);
      match after {
        case Err(_) => return None;
        case Ok(s) => return Some(s);
      }
    }
  }

  /** Building a ledger on given blocks: the genesis must hold up, and the blocks must replay. */
  method OpenLedger(rules: Rules, chain: seq<Block>) returns (r: Result<Ledger, LedgerFault>)
    ensures chain == [] || !IdentityHolds(rules, chain[0]) ==> r == Err(WrongIdentity)
    ensures chain != [] && IdentityHolds(rules, chain[0])
            ==> match StateAfter(rules.ctx, chain, |chain| - 1)
                case Err(e) => r == Err(Refused(e))
                case Ok(_) =>
                  && r.Ok? && fresh(r.value) && r.value.rules == rules && r.value.chain == chain
                  && r.value.Valid()
  {
    if chain == [] || !IdentityHolds(rules, chain[0]) { return Err(WrongIdentity); }
    var ledger := new Ledger(rules, chain);
    var replayed := ledger.ReplayRegistryStates();
    match replayed {
      case Err(e) => return Err(Refused(e));
      case Ok(_) => return Ok(ledger);
    }
  }

  lemma {:induction false} ReplayExtends(rules: Rules, chain: seq<Block>, cache: map<nat, State>, height: nat, s: State)
    requires height < |chain| && CachedBelow(rules, chain, cache, height)
             && StateAfter(rules.ctx, chain, height) == Ok(s)
    ensures CachedBelow(rules, chain, cache[height := s], height + 1)
  {
    var filled := cache[height := s];
    forall h | 0 <= h < height + 1 ensures CachedAt(rules, chain, filled, h) {
      assert h < height ==> CachedAt(rules, chain, cache, h);
    }
  }

  lemma {:induction false} CacheExtends(rules: Rules, chain: seq<Block>, b: Block, cache: map<nat, State>, s: State)
    requires chain != [] && CacheIsReplay(rules, chain, cache)
    requires StateAfter(rules.ctx, chain, |chain| - 1).Ok?
    requires ApplyAll(rules.ctx, StateAfter(rules.ctx, chain, |chain| - 1).value, b.transactions, |chain|) == Ok(s)
    ensures CacheIsReplay(rules, chain + [b], cache[|chain| := s])
  {
    var longer, filled := chain + [b], cache[|chain| := s];
    assert longer[..|chain|] == chain;
    forall h | 0 <= h < |longer| ensures CachedAt(rules, longer, filled, h) {
      if h < |chain| {
        assert CachedAt(rules, chain, cache, h);
        StateOfPrefix(rules.ctx, longer, |chain|, h);
      } else {
        assert CachedAt(rules, chain, cache, h - 1);
        StateOfPrefix(rules.ctx, longer, |chain|, h - 1);
      }
    }
  }

  // ---------- growing and validating agree ----------

  lemma {:induction false} MedianOfChainPrefix(chain: seq<Block>, n: nat, height: nat)
    requires height <= n <= |chain|
    ensures MedianBefore(chain[..n], height) == MedianBefore(chain, height)
  {
    assert Timestamps(chain[..n]) == Timestamps(chain)[..n];
    MedianOfPrefix(Timestamps(chain), n, height);
  }

  /** The clock is the only thing admission asks for beyond full validation. */
  lemma {:induction false} AdmissionIsValidation(rules: Rules, chain: seq<Block>, i: nat, now: int)
    requires 0 < i < |chain|
    ensures Admissible(rules, chain[..i], chain[i], now)
            <==> ValidAt(rules, chain, i) && chain[i].header.timestamp <= now + FUTURE_LIMIT
  {
    MedianOfChainPrefix(chain, i, i);
    ExpectedTargetOfPrefix(chain, i, i);
    StateOfPrefix(rules.ctx, chain, i, i - 1);
  }

  lemma {:induction false} AdmittedOrValid(rules: Rules, chain: seq<Block>, i: nat)
    requires 0 < i < |chain|
    ensures AdmittedAt(rules, chain, i) <==> ValidAt(rules, chain, i)
  {
    if AdmittedAt(rules, chain, i) {
      var now :| Admissible(rules, chain[..i], chain[i], now);
      AdmissionIsValidation(rules, chain, i, now);
    }
    AdmissionIsValidation(rules, chain, i, chain[i].header.timestamp);
  }

  /** A chain passes full validation exactly when its genesis does and every block could have been admitted in turn. */
  lemma {:induction false} GrownChainsValidate(rules: Rules, chain: seq<Block>)
    requires chain != []
    ensures ValidChain(rules, chain) <==> GenesisValid(rules, chain[0]) && Grown(rules, chain)
  {
    forall i | 0 < i < |chain| ensures AdmittedAt(rules, chain, i) <==> ValidAt(rules, chain, i) {
      AdmittedOrValid(rules, chain, i);
    }
  }

  /** State, expected target and median at a height depend only on the chain below it. */
  lemma {:induction false} HistoryDecides(rules: Rules, a: seq<Block>, b: seq<Block>, height: nat)
    requires 0 < height < |a| && height < |b| && a[..height] == b[..height]
    ensures StateAfter(rules.ctx, a, height - 1) == StateAfter(rules.ctx, b, height - 1)
    ensures ExpectedTargetAt(a, height) == ExpectedTargetAt(b, height)
    ensures MedianBefore(a, height) == MedianBefore(b, height)
    ensures a[height] == b[height] ==> (ValidAt(rules, a, height) <==> ValidAt(rules, b, height))
  {
    StateOfPrefix(rules.ctx, a, height, height - 1);
    StateOfPrefix(rules.ctx, b, height, height - 1);
    ExpectedTargetOfPrefix(a, height, height);
    ExpectedTargetOfPrefix(b, height, height);
    MedianOfChainPrefix(a, height, height);
    MedianOfChainPrefix(b, height, height);
  }

  /** Blocks offered to a ledger one after the other; refused ones leave no trace. */
  function Offer(rules: Rules, chain: seq<Block>, offers: seq<(Block, int)>): seq<Block>
    requires chain != []
    decreases |offers|
  {
    if offers == [] then chain
    else if Admissible(rules, chain, offers[0].0, offers[0].1) then Offer(rules, chain + [offers[0].0], offers[1..])
    else Offer(rules, chain, offers[1..])
  }

  /** Whatever is offered to a ledger whose genesis is valid, the chain it ends with passes full validation. */
  lemma {:induction false} EveryLedgerValidates(rules: Rules, chain: seq<Block>, offers: seq<(Block, int)>)
    requires ValidChain(rules, chain)
    ensures ValidChain(rules, Offer(rules, chain, offers)) && chain <= Offer(rules, chain, offers)
    decreases |offers|
  {
    if offers != [] {
      var b, now := offers[0].0, offers[0].1;
      if Admissible(rules, chain, b, now) {
        AdmittedKeepsValid(rules, chain, b, now);
        EveryLedgerValidates(rules, chain + [b], offers[1..]);
      } else {
        EveryLedgerValidates(rules, chain, offers[1..]);
      }
    }
  }

  lemma {:induction false} AdmittedKeepsValid(rules: Rules, chain: seq<Block>, b: Block, now: int)
    requires ValidChain(rules, chain) && Admissible(rules, chain, b, now)
    ensures ValidChain(rules, chain + [b])
  {
    var longer, n := chain + [b], |chain|;
    assert longer[..n] == chain;
    forall i | 0 < i < |longer| ensures ValidAt(rules, longer, i) {
      if i < n {
        assert ValidAt(rules, chain, i);
        assert longer[..i] == chain[..i];
        HistoryDecides(rules, chain, longer, i);
      } else {
        assert longer[n] == b && Admissible(rules, longer[..n], longer[n], now);
        AdmissionIsValidation(rules, longer, n, now);
      }
    }
  }

  // ---------- what every accepted chain has ----------

  lemma {:induction false} ValidChainsReplay(rules: Rules, chain: seq<Block>, height: nat)
    requires ValidChain(rules, chain) && height < |chain|
    ensures StateAfter(rules.ctx, chain, height).Ok?
  {
    if height > 0 {
      assert ValidAt(rules, chain, height);
    }
  }

  lemma {:induction false} AcceptedChains(rules: Rules, chain: seq<Block>)
    requires ValidChain(rules, chain)
    ensures OnTarget(chain)
    ensures LaterThanMedian(Timestamps(chain))
  {
    forall i | 0 < i < |chain| ensures OnTargetAt(chain, i) && LaterAt(Timestamps(chain), i) {
      assert ValidAt(rules, chain, i);
    }
  }

  /** Every identity the network code derives, and the frozen one, starts at the easiest target. */
  predicate StandardGenesis(rules: Rules) {
    rules.genesisHeader.target == GENESIS_TARGET
  }

  /** On every accepted chain targets stay in [1, MAX_TARGET], and after k boundaries at or above MAX_TARGET / 4^k. */
  lemma {:induction false} AcceptedTargets(rules: Rules, chain: seq<Block>, height: nat)
    requires StandardGenesis(rules) && ValidChain(rules, chain) && height < |chain|
    ensures MIN_TARGET <= chain[height].header.target <= MAX_TARGET
    ensures chain[height].header.target >= MAX_TARGET / Pow4(height / 10)
    ensures 10 <= height && height % 10 == 0
            ==> var below := chain[height - 1].header.target;
                below / 4 <= chain[height].header.target <= 4 * below
  {
    AcceptedChains(rules, chain);
    TargetsStayInRange(chain, height);
    TargetFloor(chain, height);
    if 10 <= height && height % 10 == 0 {
      BoundaryMovesByFour(chain, height);
    }
  }

  predicate PositiveWork(chain: seq<Block>) {
    forall i :: 0 <= i < |chain| ==> chain[i].header.target > 0
  }

  /** Along every accepted chain each block adds at least one unit of work, and the median never goes back. */
  lemma {:induction false} AcceptedProgress(rules: Rules, chain: seq<Block>, i: nat, j: nat)
    requires StandardGenesis(rules) && ValidChain(rules, chain) && 1 <= i <= j <= |chain|
    ensures PositiveWork(chain) && ChainWork(chain[..j]) >= ChainWork(chain[..i]) + (j - i)
    ensures MedianBefore(chain, i) <= MedianBefore(chain, j)
    ensures j < |chain| ==> MedianBefore(chain, i) < chain[j].header.timestamp
  {
    AcceptedChains(rules, chain);
    forall k | 0 <= k < |chain| ensures chain[k].header.target > 0 {
      TargetsStayInRange(chain, k);
    }
    OnTargetPrefix(chain, j);
    WorkGrowsWithEveryBlock(chain[..j], i);
    assert chain[..j][..i] == chain[..i];
    MedianNeverDecreases(Timestamps(chain), i, j);
    if j < |chain| {
      LaterThanEveryEarlierMedian(Timestamps(chain), i, j);
    }
  }

  // ---------- a block hash fixes what the block does ----------

  lemma {:induction false} ApplyAllSplits(ctx: Context, s: State, a: seq<Transaction>, b: seq<Transaction>, height: nat)
    ensures ApplyAll(ctx, s, a + b, height)
            == match ApplyAll(ctx, s, a, height) case Err(e) => Err(e) case Ok(t) => ApplyAll(ctx, t, b, height)
    decreases |a|
  {
    if a == [] {
      assert a + b == b;
    } else {
      assert (a + b)[1..] == a[1..] + b;
      var first := ApplyOne(ctx, s, a[0], height);
      if first.Ok? {
        ApplyAllSplits(ctx, first.value, a[1..], b, height);
      }
    }
  }

  /** The state named by a mutation applied on the way lies strictly below the state reached. */
  lemma {:induction false} AppliedLiesBelow(ctx: Context, s: State, txs: seq<Transaction>, height: nat)
    requires ApplyAll(ctx, s, txs, height).Ok?
    ensures var depth := RecordsDepth(ApplyAll(ctx, s, txs, height).value.records);
            && RecordsDepth(s.records) <= depth
            && forall i :: 0 <= i < |txs| && txs[i].Governance? ==> Depth(txs[i].tx.previousRoot) <= depth
    decreases |txs|
  {
    if txs != [] {
      var next := ApplyOne(ctx, s, txs[0], height).value;
      AppliedLiesBelow(ctx, next, txs[1..], height);
      if txs[0].Governance? {
        ApplyDeepens(ctx, s, txs[0].tx, height);
      }
      forall i | 0 <= i < |txs| && txs[i].Governance?
        ensures Depth(txs[i].tx.previousRoot) <= RecordsDepth(ApplyAll(ctx, s, txs, height).value.records)
      {
        assert i > 0 ==> txs[i] == txs[1..][i - 1];
      }
    }
  }

  /** Mutations that name a state below the present one cannot be applied again. */
  lemma {:induction false} OldMutationsDoNothing(ctx: Context, t: State, txs: seq<Transaction>, height: nat)
    requires ApplyAll(ctx, t, txs, height).Ok?
    requires forall i ::
               0 <= i < |txs| && txs[i].Governance? ==> Depth(txs[i].tx.previousRoot) <= RecordsDepth(t.records)
    ensures ApplyAll(ctx, t, txs, height) == Ok(t)
    decreases |txs|
  {
    if txs != [] {
      if txs[0].Governance? {
        ApplyDeepens(ctx, t, txs[0].tx, height);
        assert false;
      }
      forall i | 0 <= i < |txs[1..]| && txs[1..][i].Governance?
        ensures Depth(txs[1..][i].tx.previousRoot) <= RecordsDepth(t.records)
      {
        assert txs[1..][i] == txs[i + 1];
      }
      OldMutationsDoNothing(ctx, t, txs[1..], height);
    }
  }

  /** Whatever a Merkle root leaves open about a block, it does not change what the block does to the registry. */
  lemma {:induction false} RepeatsChangeNothing(ctx: Context, s: State, x: seq<Transaction>, y: seq<Transaction>,
                                                height: nat)
    requires Repeats(x, y) && ApplyAll(ctx, s, x, height).Ok? && ApplyAll(ctx, s, y, height).Ok?
    ensures ApplyAll(ctx, s, y, height) == ApplyAll(ctx, s, x, height)
  {
    var t, extra := ApplyAll(ctx, s, x, height).value, y[|x|..];
    assert y == x + extra;
    ApplyAllSplits(ctx, s, x, extra, height);
    AppliedLiesBelow(ctx, s, x, height);
    forall i | 0 <= i < |extra| && extra[i].Governance?
      ensures Depth(extra[i].tx.previousRoot) <= RecordsDepth(t.records)
    {
      assert extra[i] == y[|x| + i] && y[|x| + i] in x;
    }
    OldMutationsDoNothing(ctx, t, extra, height);
  }

  lemma {:induction false} HashFixesEffect(ctx: Context, s: State, a: Block, b: Block, height: nat)
    requires BlockHash(a) == BlockHash(b)
    requires MerkleRootOf(a) == a.header.merkleRoot && MerkleRootOf(b) == b.header.merkleRoot
    requires ApplyAll(ctx, s, a.transactions, height).Ok? && ApplyAll(ctx, s, b.transactions, height).Ok?
    ensures ApplyAll(ctx, s, a.transactions, height) == ApplyAll(ctx, s, b.transactions, height)
  {
    if |a.transactions| <= |b.transactions| {
      EqualHashesUpToRepeats(a, b);
      RepeatsChangeNothing(ctx, s, a.transactions, b.transactions, height);
    } else {
      EqualHashesUpToRepeats(b, a);
      RepeatsChangeNothing(ctx, s, b.transactions, a.transactions, height);
    }
  }

  /** The headers of an accepted chain fix every registry state, whichever transactions are delivered under them. */
  lemma {:induction false} HeadersFixStates(rules: Rules, a: seq<Block>, b: seq<Block>, height: nat)
    requires ValidChain(rules, a) && ValidChain(rules, b) && height < |a| && height < |b|
    requires a[height].header == b[height].header
    ensures StateAfter(rules.ctx, a, height).Ok? && StateAfter(rules.ctx, a, height) == StateAfter(rules.ctx, b, height)
  {
    if height > 0 {
      assert ValidAt(rules, a, height) && ValidAt(rules, b, height);
      HashFixesEffect(rules.ctx, StateAfter(rules.ctx, a, height - 1).value, a[height], b[height], height);
    }
  }

  // ---------- no mutation is applied twice along a chain ----------

  lemma {:induction false} BlockIsARun(ctx: Context, s: State, transactions: seq<Transaction>, height: nat)
    requires ApplyAll(ctx, s, transactions, height).Ok?
    ensures Run(ctx, s, Mutations(transactions, height)) == ApplyAll(ctx, s, transactions, height)
    decreases |transactions|
  {
    if transactions != [] {
      var tx, others := transactions[0], Mutations(transactions[1..], height);
      var next := ApplyOne(ctx, s, tx, height).value;
      BlockIsARun(ctx, next, transactions[1..], height);
      if tx.Governance? {
        assert ([Step(tx.tx, height)] + others)[1..] == others;
      } else {
        assert [] + others == others;
      }
    }
  }

  /** The registry of a chain is the run of all its mutations in order. */
  lemma {:induction false} ChainIsARun(ctx: Context, chain: seq<Block>, height: nat)
    requires height < |chain| && StateAfter(ctx, chain, height).Ok?
    ensures Run(ctx, GenesisState(ctx), MutationsUpTo(chain, height)) == StateAfter(ctx, chain, height)
  {
    if height > 0 {
      ChainIsARun(ctx, chain, height - 1);
      var before := StateAfter(ctx, chain, height - 1).value;
      BlockIsARun(ctx, before, chain[height].transactions, height);
      RunSplits(ctx, GenesisState(ctx), MutationsUpTo(chain, height - 1),
                Mutations(chain[height].transactions, height));
    }
  }

  /** Along every accepted chain no mutation occurs twice, in one block or in several, not even signed by other keys. */
  lemma {:induction false} NoMutationRepeats(rules: Rules, chain: seq<Block>, height: nat, i: nat, j: nat)
    requires ValidChain(rules, chain) && height < |chain|
    requires i < j < |MutationsUpTo(chain, height)|
    ensures var all := MutationsUpTo(chain, height);
            Body(all[i].tx) != Body(all[j].tx) && TxidOf(all[i].tx) != TxidOf(all[j].tx)
  {
    ValidChainsReplay(rules, chain, height);
    ChainIsARun(rules.ctx, chain, height);
    NothingIsAppliedTwice(rules.ctx, GenesisState(rules.ctx), MutationsUpTo(chain, height), i, j);
    EqualIdsEqualBodies(MutationsUpTo(chain, height)[i].tx, MutationsUpTo(chain, height)[j].tx);
  }

  lemma {:induction false} EqualIdsEqualBodies(a: GovernanceTx, b: GovernanceTx)
    ensures TxidOf(a) == TxidOf(b) ==> Body(a) == Body(b)
  {
    var x, y := a.(signatures := Sort(a.signatures, IndexLeq)), b.(signatures := Sort(b.signatures, IndexLeq));
    assert Body(x) == Body(a) && Body(y) == Body(b);
  }

  /** Every state of an accepted chain is well formed, and the state before a block is named by its header. */
  lemma {:induction false} ChainStatesAreWellFormed(rules: Rules, chain: seq<Block>, height: nat)
    requires ValidChain(rules, chain) && height < |chain|
    ensures StateAfter(rules.ctx, chain, height).Ok? && WellFormed(StateAfter(rules.ctx, chain, height).value)
    ensures height + 1 < |chain|
            ==> chain[height + 1].header.registryRoot == RegistryRoot(StateAfter(rules.ctx, chain, height).value)
  {
    ValidChainsReplay(rules, chain, height);
    ChainIsARun(rules.ctx, chain, height);
    ReachableStatesAreWellFormed(rules.ctx, GenesisState(rules.ctx), MutationsUpTo(chain, height));
    assert height + 1 < |chain| ==> ValidAt(rules, chain, height + 1);
  }
}
