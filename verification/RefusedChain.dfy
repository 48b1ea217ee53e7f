/**
 Two chains the ledger accepts, of which the engine holding the lighter one refuses the heavier: grown to
 order, on any rules that let them be mined.
 */
module RefusedChain {
  import opened Wrappers
  import opened Types
  import opened Governance
  import opened MedianTime
  import opened Difficulty
  import opened Blocks
  import opened Chain
  import opened ForkChoice
  import opened LongestChain

  // ---------- mining ----------

  /** With nonce n the header's hash meets its target. */
  predicate Meets(rules: Rules, h: Header, n: nat) {
    rules.powValue(HeaderHash(h.(nonce := n))) <= h.target
  }

  ghost predicate HasNonce(rules: Rules, h: Header) {
    exists n: nat :: Meets(rules, h, n)
  }

  ghost predicate WorkFor(rules: Rules, h: Header) {
    h.target >= MIN_TARGET ==> HasNonce(rules, h)
  }

  /** Whatever the header says, some nonce meets any target in range: the work can be done. */
  ghost predicate WorkCanBeDone(rules: Rules) {
    forall h: Header :: WorkFor(rules, h)
  }

  /** The header with a nonce that meets its target, if there is one. */
  ghost function Mined(rules: Rules, h: Header): Header {
    if HasNonce(rules, h) then var n: nat :| Meets(rules, h, n); h.(nonce := n) else h
  }

  lemma {:induction false} MinedMeets(rules: Rules, h: Header)
    requires WorkCanBeDone(rules) && h.target >= MIN_TARGET
    ensures rules.powValue(HeaderHash(Mined(rules, h))) <= h.target
    ensures exists n: nat :: Mined(rules, h) == h.(nonce := n)
  {
    assert WorkFor(rules, h);
    var n: nat :| Mined(rules, h) == h.(nonce := n) && Meets(rules, h, n);
  }

  // ---------- growing a chain ----------

  function EmptyHeader(rules: Rules, prev: Hash, timestamp: int, target: nat): Header {
    Header(PROTOCOL_VERSION, prev, ZERO_HASH, RegistryRoot(GenesisState(rules.ctx)), timestamp, target, 0)
  }

  /** An empty block, mined, with the given place, time and target. */
  ghost function EmptyBlock(rules: Rules, prev: Hash, timestamp: int, target: nat): Block {
    Block(Mined(rules, EmptyHeader(rules, prev, timestamp, target)), [])
  }

  lemma {:induction false} EmptyBlockIs(rules: Rules, prev: Hash, timestamp: int, target: nat)
    ensures var b := EmptyBlock(rules, prev, timestamp, target);
            && b.header.version == PROTOCOL_VERSION && b.header.prevHash == prev && b.header.merkleRoot == ZERO_HASH
            && b.header.registryRoot == RegistryRoot(GenesisState(rules.ctx))
            && b.header.timestamp == timestamp && b.header.target == target && b.transactions == []
    ensures WorkCanBeDone(rules) && target >= MIN_TARGET
            ==> SatisfiesPow(rules, EmptyBlock(rules, prev, timestamp, target))
  {
    if WorkCanBeDone(rules) && target >= MIN_TARGET {
      MinedMeets(rules, EmptyHeader(rules, prev, timestamp, target));
    }
  }

  /** The next empty block, `gap` seconds after the last. */
  ghost function NextBlock(rules: Rules, chain: seq<Block>, gap: nat): Block
    requires chain != []
  {
    var last := chain[|chain| - 1];
    EmptyBlock(rules, BlockHash(last), last.header.timestamp + gap, ExpectedTargetAt(chain, |chain|))
  }

  ghost function Grow(rules: Rules, genesis: Block, gap: nat, n: nat): (chain: seq<Block>)
    ensures |chain| == n + 1 && chain[0] == genesis
  {
    if n == 0 then [genesis] else var below := Grow(rules, genesis, gap, n - 1); below + [NextBlock(rules, below, gap)]
  }

  lemma {:induction false} GrowPrefix(rules: Rules, genesis: Block, gap: nat, n: nat, k: nat)
    requires k <= n
    ensures Grow(rules, genesis, gap, n)[..k + 1] == Grow(rules, genesis, gap, k)
  {
    var chain := Grow(rules, genesis, gap, n);
    if k < n {
      GrowPrefix(rules, genesis, gap, n - 1, k);
      assert chain[..k + 1] == chain[..n][..k + 1];
    } else {
      assert chain[..k + 1] == chain;
    }
  }

  ghost predicate Mineable(rules: Rules, genesis: Block) {
    && StandardGenesis(rules) && GenesisValid(rules, genesis) && genesis.header.timestamp >= 0
    && WorkCanBeDone(rules)
  }

  lemma {:induction false} GrownTimes(rules: Rules, genesis: Block, gap: nat, n: nat, i: nat)
    requires i <= n
    ensures Grow(rules, genesis, gap, n)[i].header.timestamp == genesis.header.timestamp + gap * i
    decreases n
  {
    if i < n {
      GrownTimes(rules, genesis, gap, n - 1, i);
    } else if n > 0 {
      GrownTimes(rules, genesis, gap, n - 1, n - 1);
      Distribute(gap, n - 1, 1);
    }
  }

  lemma {:induction false} MedianBelow(timestamps: seq<int>, end: nat, bound: int)
    requires end <= |timestamps| && 0 < bound && forall i :: 0 <= i < |timestamps| ==> timestamps[i] < bound
    ensures MedianPastTime(timestamps, end) < bound
  {
    var w := Window(timestamps, end);
    if w != [] {
      SortedMember(w, (|w| - 1) / 2);
    }
  }

  ghost predicate AllEmpty(chain: seq<Block>) {
    forall i :: 0 < i < |chain| ==> chain[i].transactions == []
  }

  lemma {:induction false} EmptyBlocksKeepState(ctx: Context, chain: seq<Block>, height: nat)
    requires height < |chain| && AllEmpty(chain)
    ensures StateAfter(ctx, chain, height) == Ok(GenesisState(ctx))
  {
    if height > 0 {
      EmptyBlocksKeepState(ctx, chain, height - 1);
    }
  }

  lemma {:induction false} ExpectedInRange(chain: seq<Block>)
    requires Regular(chain)
    ensures MIN_TARGET <= ExpectedTargetAt(chain, |chain|) <= MAX_TARGET
  {
    var n := |chain|;
    TargetsStayInRange(chain, n - 1);
    if n >= 10 && n % 10 == 0 {
      AdjustIsBounded(chain[n - 1].header.target, chain[n - 1].header.timestamp - chain[n - 10].header.timestamp);
    }
  }

  lemma {:induction false} GrownIsEmpty(rules: Rules, genesis: Block, gap: nat, n: nat)
    ensures AllEmpty(Grow(rules, genesis, gap, n))
  {
    if n > 0 {
      GrownIsEmpty(rules, genesis, gap, n - 1);
    }
  }

  /** An empty block in its place, in time, with the expected target and enough work. */
  ghost predicate EmptyNext(rules: Rules, chain: seq<Block>, b: Block)
    requires chain != []
  {
    && b.header.version == PROTOCOL_VERSION && b.header.merkleRoot == ZERO_HASH && b.transactions == []
    && b.header.prevHash == BlockHash(chain[|chain| - 1])
    && b.header.registryRoot == RegistryRoot(GenesisState(rules.ctx))
    && MIN_TARGET <= b.header.target <= MAX_TARGET && b.header.target == ExpectedTargetAt(chain, |chain|)
    && SatisfiesPow(rules, b)
    && b.header.timestamp > 0 && b.header.timestamp > MedianBefore(chain, |chain|)
  }

  lemma {:induction false} EmptyIsAdmissible(rules: Rules, chain: seq<Block>, b: Block)
    requires chain != [] && StateAfter(rules.ctx, chain, |chain| - 1) == Ok(GenesisState(rules.ctx))
    requires EmptyNext(rules, chain, b)
    ensures Admissible(rules, chain, b, b.header.timestamp)
  {
  }

  lemma {:induction false} EmptyKeepsValid(rules: Rules, chain: seq<Block>, b: Block)
    requires ValidChain(rules, chain) && EmptyNext(rules, chain, b)
    requires AllEmpty(chain)
    ensures ValidChain(rules, chain + [b])
  {
    EmptyBlocksKeepState(rules.ctx, chain, |chain| - 1);
    EmptyIsAdmissible(rules, chain, b);
    AdmittedKeepsValid(rules, chain, b, b.header.timestamp);
  }

  /** Every chain grown this way is one the ledger accepts. */
  lemma {:induction false} GrownIsValid(rules: Rules, genesis: Block, gap: nat, n: nat)
    requires Mineable(rules, genesis) && gap > 0
    ensures ValidChain(rules, Grow(rules, genesis, gap, n))
  {
    if n > 0 {
      GrownIsValid(rules, genesis, gap, n - 1);
      var below := Grow(rules, genesis, gap, n - 1);
      NextIsInPlace(rules, genesis, below, gap, n);
      GrownIsEmpty(rules, genesis, gap, n - 1);
      OneMoreIsValid(rules, below, NextBlock(rules, below, gap), Grow(rules, genesis, gap, n));
    }
  }

  lemma {:induction false} OneMoreIsValid(rules: Rules, chain: seq<Block>, b: Block, longer: seq<Block>)
    requires ValidChain(rules, chain) && EmptyNext(rules, chain, b) && AllEmpty(chain) && longer == chain + [b]
    ensures ValidChain(rules, longer)
  {
    EmptyKeepsValid(rules, chain, b);
  }

  lemma {:induction false} NextIsInPlace(rules: Rules, genesis: Block, below: seq<Block>, gap: nat, n: nat)
    requires Mineable(rules, genesis) && gap > 0 && n > 0
    requires below == Grow(rules, genesis, gap, n - 1) && ValidChain(rules, below)
    ensures EmptyNext(rules, below, NextBlock(rules, below, gap))
  {
    LedgerChainsAreRegular(rules, below);
    ExpectedInRange(below);
    EmptyBlockIs(rules, BlockHash(below[n - 1]), below[n - 1].header.timestamp + gap, ExpectedTargetAt(below, n));
    NextIsLater(rules, genesis, below, gap, n);
  }

  lemma {:induction false} NextIsLater(rules: Rules, genesis: Block, below: seq<Block>, gap: nat, n: nat)
    requires genesis.header.timestamp >= 0 && gap > 0 && n > 0 && below == Grow(rules, genesis, gap, n - 1)
    ensures var next := below[n - 1].header.timestamp + gap; next > 0 && next > MedianBefore(below, n)
  {
    var times, next := Timestamps(below), below[n - 1].header.timestamp + gap;
    GrownTimes(rules, genesis, gap, n - 1, n - 1);
    MulMonotone(gap, 0, n - 1);
    forall i | 0 <= i < |times| ensures times[i] < next {
      GrownTimes(rules, genesis, gap, n - 1, i);
      MulMonotone(gap, i, n - 1);
    }
    MedianBelow(times, n, next);
  }

  /** Target at height h of a grown chain. */
  lemma {:induction false} GrownTarget(rules: Rules, genesis: Block, gap: nat, n: nat, h: nat)
    requires Mineable(rules, genesis) && gap > 0 && 0 < h <= n
    ensures var chain := Grow(rules, genesis, gap, n);
            chain[h].header.target == ExpectedTargetAt(chain, h)
  {
    GrownIsValid(rules, genesis, gap, n);
    AcceptedChains(rules, Grow(rules, genesis, gap, n));
    assert OnTargetAt(Grow(rules, genesis, gap, n), h);
  }

  /** Up to the first boundary all targets are the genesis target; there it depends on the pace. */
  lemma {:induction false} FirstTargets(rules: Rules, genesis: Block, gap: nat, n: nat, h: nat)
    requires Mineable(rules, genesis) && gap > 0 && h <= n && h <= 10
    ensures Grow(rules, genesis, gap, n)[h].header.target == if h < 10 then MAX_TARGET else Adjust(MAX_TARGET, 9 * gap)
  {
    var chain := Grow(rules, genesis, gap, n);
    if h > 0 {
      GrownTarget(rules, genesis, gap, n, h);
      if h == 10 {
        GrownTarget(rules, genesis, gap, n, 9);
        GrownTimes(rules, genesis, gap, n, 0);
        GrownTimes(rules, genesis, gap, n, 9);
        assert gap * 9 - gap * 0 == 9 * gap;
      }
    }
  }

  const SLOW := 1000
  const QUICK := 1

  lemma {:induction false} BoundaryTargets()
    ensures Adjust(MAX_TARGET, 9 * SLOW) == MAX_TARGET && Adjust(MAX_TARGET, 9 * QUICK) == MAX_TARGET / 4
  {
  }

  lemma {:induction false} Weights()
    ensures TWO_256 / (MAX_TARGET + 1) == 65537 && TWO_256 / (MAX_TARGET / 4 + 1) > 2 * 65537
  {
    QuotientIs(TWO_256, MAX_TARGET + 1, 65537, TWO_256 - 65537 * (MAX_TARGET + 1));
    var d := MAX_TARGET / 4 + 1;
    assert TWO_256 >= d * 200000;
    DivMonotone(d * 200000, TWO_256, d);
    QuotientIs(d * 200000, d, 200000, 0);
  }

  lemma {:induction false} WorkOfGrown(rules: Rules, genesis: Block, gap: nat, n: nat)
    requires n > 0
    ensures Work(Grow(rules, genesis, gap, n))
            == Work(Grow(rules, genesis, gap, n - 1)) + BlockWork(Grow(rules, genesis, gap, n)[n])
  {
    assert Grow(rules, genesis, gap, n)[..n] == Grow(rules, genesis, gap, n - 1);
  }

  /** The first ten blocks weigh the same at any pace. */
  lemma {:induction false} EqualStart(rules: Rules, genesis: Block)
    requires Mineable(rules, genesis)
    ensures Work(Grow(rules, genesis, SLOW, 9)) == Work(Grow(rules, genesis, QUICK, 9))
  {
    var a, b := Grow(rules, genesis, SLOW, 9), Grow(rules, genesis, QUICK, 9);
    forall i | 0 <= i < 10 ensures a[i].header.target == b[i].header.target {
      FirstTargets(rules, genesis, SLOW, 9, i);
      FirstTargets(rules, genesis, QUICK, 9, i);
    }
    WorkIsTotal(a);
    WorkIsTotal(b);
    TotalOfTargets(a, b, EngineMeasure());
  }

  /** Twelve slow blocks keep the easiest target; eleven quick ones end with a quarter of it, and weigh more. */
  lemma {:induction false} QuickIsHeavier(rules: Rules, genesis: Block)
    requires Mineable(rules, genesis)
    ensures Work(Grow(rules, genesis, QUICK, 10)) > Work(Grow(rules, genesis, SLOW, 11))
  {
    EqualStart(rules, genesis);
    BoundaryTargets();
    Weights();
    FirstTargets(rules, genesis, SLOW, 10, 10);
    FirstTargets(rules, genesis, QUICK, 10, 10);
    GrownTarget(rules, genesis, SLOW, 11, 11);
    FirstTargets(rules, genesis, SLOW, 11, 10);
    WorkOfGrown(rules, genesis, SLOW, 10);
    WorkOfGrown(rules, genesis, SLOW, 11);
    WorkOfGrown(rules, genesis, QUICK, 10);
  }

  lemma {:induction false} ForkAtGenesis(rules: Rules, genesis: Block)
    requires Mineable(rules, genesis)
    ensures Ancestor(Grow(rules, genesis, SLOW, 11), Grow(rules, genesis, QUICK, 10)) == 0
  {
    var a, b := Grow(rules, genesis, SLOW, 11), Grow(rules, genesis, QUICK, 10);
    HighestSharedIsHighest(a, b, 10);
    var h := Ancestor(a, b);
    if h > 0 {
      GrownTimes(rules, genesis, SLOW, 11, h);
      GrownTimes(rules, genesis, QUICK, 10, h);
    }
  }

  /**
   On the default network, whatever the genesis block and the governance keys: an engine on the
   slow chain refuses the quick one as invalid, although the ledger accepts it and it weighs more.
   */
  lemma {:induction false} HeavierLedgerChainIsRefused(rules: Rules, genesis: Block, e: Engine)
    requires Mineable(rules, genesis) && SetUp(rules, e) && e.maxDepth == None
    requires e.chain == Grow(rules, genesis, SLOW, 11)
    ensures var candidate := Grow(rules, genesis, QUICK, 10);
            && ValidChain(rules, e.chain) && ValidChain(rules, candidate)
            && Work(candidate) > Work(e.chain)
            && Evaluate(e, candidate) == Kept(InvalidSuffix, 0)
  {
    var candidate := Grow(rules, genesis, QUICK, 10);
    GrownIsValid(rules, genesis, SLOW, 11);
    GrownIsValid(rules, genesis, QUICK, 10);
    QuickIsHeavier(rules, genesis);
    ForkAtGenesis(rules, genesis);
    BoundaryTargets();
    FirstTargets(rules, genesis, SLOW, 11, 10);
    FirstTargets(rules, genesis, QUICK, 10, 10);
    assert !FollowsAt(e.chain, candidate, 10);
    LedgerChainVerdict(rules, e, candidate);
  }
}
