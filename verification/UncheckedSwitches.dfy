/**
 Switches that the missing checks let through, on any rules under which blocks can be mined: to a chain
 the ledger refuses, and back to a tip that had been abandoned.
 */
module UncheckedSwitches {
  import opened Wrappers
  import opened Types
  import opened Difficulty
  import opened Blocks
  import opened Chain
  import opened ForkChoice
  import opened ForkAgreement
  import opened LongestChain
  import opened Switching
  import opened RefusedChain

  // ---------- plain blocks ----------

  /** An empty mined block with the easiest target; its place and time are free. */
  predicate Plain(rules: Rules, b: Block) {
    && b.header.version == PROTOCOL_VERSION && b.header.merkleRoot == ZERO_HASH && b.transactions == []
    && b.header.registryRoot == RegistryRoot(GenesisState(rules.ctx))
    && b.header.target == MAX_TARGET && SatisfiesPow(rules, b)
  }

  ghost predicate PlainChain(rules: Rules, chain: seq<Block>) {
    && 0 < |chain| <= 10 && chain[0].header.target == MAX_TARGET
    && forall i :: 0 < i < |chain| ==> Plain(rules, chain[i])
  }

  lemma {:induction false} EmptyIsPlain(rules: Rules, prev: Hash, timestamp: int)
    requires WorkCanBeDone(rules)
    ensures Plain(rules, EmptyBlock(rules, prev, timestamp, MAX_TARGET))
  {
    EmptyBlockIs(rules, prev, timestamp, MAX_TARGET);
  }

  lemma {:induction false} PlainIsRegular(rules: Rules, chain: seq<Block>)
    requires PlainChain(rules, chain)
    ensures Regular(chain) && forall h :: 0 < h < |chain| ==> chain[h].header.target == MAX_TARGET
  {
    forall i | 1 <= i < |chain| ensures OnTargetAt(chain, i) {
      assert Plain(rules, chain[i]);
    }
  }

  lemma {:induction false} PlainKeepsState(rules: Rules, chain: seq<Block>, h: nat)
    requires PlainChain(rules, chain) && h < |chain|
    ensures StateAfter(rules.ctx, chain, h) == Ok(GenesisState(rules.ctx))
  {
    forall i | 0 < i < |chain| ensures chain[i].transactions == [] {
      assert Plain(rules, chain[i]);
    }
    EmptyBlocksKeepState(rules.ctx, chain, h);
  }

  // ---------- what the engine makes of them ----------

  ghost predicate AllPlain(rules: Rules, blocks: seq<Block>) {
    forall i :: 0 <= i < |blocks| ==> Plain(rules, blocks[i])
  }

  ghost predicate LinkedInside(blocks: seq<Block>) {
    forall i :: 0 < i < |blocks| ==> Linked(blocks, i)
  }

  ghost predicate Easiest(targets: seq<nat>) {
    forall i :: 0 <= i < |targets| ==> targets[i] == MAX_TARGET
  }

  lemma {:induction false} PlainSuffixPasses(rules: Rules, blocks: seq<Block>, k: nat, height: nat, targets: seq<nat>)
    requires k <= |blocks| <= |targets| && AllPlain(rules, blocks) && LinkedInside(blocks) && Easiest(targets)
    ensures var prev := if k == 0 then None else Some(BlockHash(blocks[k - 1]));
            SuffixFrom(rules.ctx, rules.powValue, GenesisState(rules.ctx), prev, blocks, k, height, Some(targets)).Ok?
    decreases |blocks| - k
  {
    if k < |blocks| {
      var s, prev := GenesisState(rules.ctx), if k == 0 then None else Some(BlockHash(blocks[k - 1]));
      assert Plain(rules, blocks[k]) && (k > 0 ==> Linked(blocks, k));
      SuffixUnfolds(rules.ctx, rules.powValue, s, prev, blocks, k, height, Some(targets));
      PlainSuffixPasses(rules, blocks, k + 1, height, targets);
    }
  }

  lemma {:induction false} EasiestExpected(rules: Rules, current: seq<Block>, a: nat, n: nat)
    requires PlainChain(rules, current)
    ensures Easiest(EngineTargets(current, a, n))
  {
    PlainIsRegular(rules, current);
    var targets := EngineTargets(current, a, n);
    forall i | 0 <= i < n ensures targets[i] == MAX_TARGET {
      EngineTargetIsCurrents(current, a + 1 + i);
    }
  }

  lemma {:induction false} PlainTargetFault(rules: Rules, e: Engine, a: nat, n: nat)
    requires SetUp(rules, e) && PlainChain(rules, e.chain)
    ensures TargetFault(e, a, n).None?
  {
    var top := if a + n < |e.chain| then a + n else |e.chain| - 1;
    if top > a {
      PlainKeepsState(rules, e.chain, top - 1);
    }
  }

  lemma {:induction false} PlainIsAccepted(rules: Rules, e: Engine, candidate: seq<Block>, a: nat)
    requires SetUp(rules, e) && PlainChain(rules, e.chain) && a < |e.chain| && a < |candidate|
    requires AllPlain(rules, candidate[a + 1..]) && LinkedInside(candidate[a + 1..])
    ensures Accepted(e, candidate, a)
  {
    PlainKeepsState(rules, e.chain, a);
    PlainTargetFault(rules, e, a, |candidate| - 1 - a);
    EasiestExpected(rules, e.chain, a, |candidate| - 1 - a);
    PlainSuffixPasses(rules, candidate[a + 1..], 0, a, EngineTargets(e.chain, a, |candidate| - 1 - a));
  }

  /** Plain blocks above the fork make the engine switch whenever they end higher. */
  lemma {:induction false} PlainSwitch(rules: Rules, e: Engine, candidate: seq<Block>, a: nat)
    requires SetUp(rules, e) && PlainChain(rules, e.chain) && |candidate| > |e.chain|
    requires BlockHash(candidate[0]) == BlockHash(e.chain[0]) && a == Ancestor(e.chain, candidate) && DepthAllowed(e, a)
    requires AllPlain(rules, candidate[a + 1..]) && LinkedInside(candidate[a + 1..])
    ensures Evaluate(e, candidate).Switched?
  {
    PlainIsRegular(rules, e.chain);
    PlainIsAccepted(rules, e, candidate, a);
    LongestAcceptedWins(e, candidate);
  }

  // ---------- a chain the ledger refuses ----------

  /**
   On a chain of genesis alone every plain block is adopted; whether the ledger would take it depends on its
   link and time.
   */
  lemma {:induction false} PlainBlockIsAdopted(rules: Rules, e: Engine, genesis: Block, b: Block)
    requires StandardGenesis(rules) && GenesisValid(rules, genesis) && SetUp(rules, e) && e.chain == [genesis]
    requires Plain(rules, b)
    ensures Evaluate(e, [genesis, b]).Switched? && Adopted(e.chain, [genesis, b]) == [genesis, b]
    ensures ValidChain(rules, e.chain)
    ensures ValidChain(rules, [genesis, b])
            <==> b.header.prevHash == BlockHash(genesis) && b.header.timestamp > 0
                 && b.header.timestamp > MedianBefore([genesis], 1)
  {
    var candidate := [genesis, b];
    assert candidate[1..] == [b];
    assert Ancestor(e.chain, candidate) == 0;
    PlainSwitch(rules, e, candidate, 0);
    AdoptedIsValidExactlyWhen(rules, e, candidate);
    assert candidate[..1] == [genesis];
    ExpectedTargetOfPrefix(candidate, 1, 1);
    MedianOfChainPrefix(candidate, 1, 1);
    PlainLedgerOnly(rules, candidate);
  }

  lemma {:induction false} PlainLedgerOnly(rules: Rules, chain: seq<Block>)
    requires |chain| == 2 && chain[0].header.target == MAX_TARGET && Plain(rules, chain[1])
    ensures AllLedgerOnly(rules, chain, 1)
            <==> chain[1].header.timestamp > 0 && chain[1].header.timestamp > MedianBefore(chain, 1)
  {
    assert AllLedgerOnly(rules, chain, 1) <==> LedgerOnly(rules, chain, 1);
  }

  /**
   So, whatever it names as its predecessor and whenever it claims to be made, one mined block makes the
   engine leave the ledger's chains.
   */
  lemma {:induction false} UnlinkedBlockIsAdopted(rules: Rules, e: Engine, genesis: Block, prev: Hash, timestamp: int)
    requires Mineable(rules, genesis) && SetUp(rules, e) && e.chain == [genesis] && prev != BlockHash(genesis)
    ensures var b := EmptyBlock(rules, prev, timestamp, MAX_TARGET);
            && ValidChain(rules, e.chain) && Evaluate(e, [genesis, b]).Switched?
            && Adopted(e.chain, [genesis, b]) == [genesis, b] && !ValidChain(rules, [genesis, b])
  {
    var b := EmptyBlock(rules, prev, timestamp, MAX_TARGET);
    EmptyBlockIs(rules, prev, timestamp, MAX_TARGET);
    EmptyIsPlain(rules, prev, timestamp);
    PlainBlockIsAdopted(rules, e, genesis, b);
  }

  // ---------- a tip that comes back ----------

  /** A plain block in its place and in time extends what the ledger accepts. */
  lemma {:induction false} PlainExtends(rules: Rules, chain: seq<Block>, b: Block)
    requires PlainChain(rules, chain) && ValidChain(rules, chain) && |chain| < 10 && Plain(rules, b)
    requires b.header.prevHash == BlockHash(chain[|chain| - 1])
    requires 0 < b.header.timestamp && forall i :: 0 <= i < |chain| ==> chain[i].header.timestamp < b.header.timestamp
    ensures PlainChain(rules, chain + [b]) && ValidChain(rules, chain + [b])
  {
    MedianBelow(Timestamps(chain), |chain|, b.header.timestamp);
    forall i | 0 < i < |chain| ensures chain[i].transactions == [] {
      assert Plain(rules, chain[i]);
    }
    EmptyKeepsValid(rules, chain, b);
  }

  /** Three plain blocks: t and y on genesis, z on y. */
  ghost predicate ThreeBlocks(rules: Rules, genesis: Block, t: Block, y: Block, z: Block) {
    && Plain(rules, t) && Plain(rules, y) && Plain(rules, z) && BlockHash(t) != BlockHash(y)
    && t.header.prevHash == BlockHash(genesis) && y.header.prevHash == BlockHash(genesis)
    && z.header.prevHash == BlockHash(y)
    && genesis.header.timestamp < t.header.timestamp
       && genesis.header.timestamp < y.header.timestamp < z.header.timestamp
  }

  lemma {:induction false} ThreeBlocksExist(rules: Rules, genesis: Block) returns (t: Block, y: Block, z: Block)
    requires Mineable(rules, genesis)
    ensures ThreeBlocks(rules, genesis, t, y, z)
  {
    var now := genesis.header.timestamp;
    t := EmptyBlock(rules, BlockHash(genesis), now + 1, MAX_TARGET);
    y := EmptyBlock(rules, BlockHash(genesis), now + 2, MAX_TARGET);
    z := EmptyBlock(rules, BlockHash(y), now + 3, MAX_TARGET);
    EmptyBlockIs(rules, BlockHash(genesis), now + 1, MAX_TARGET);
    EmptyBlockIs(rules, BlockHash(genesis), now + 2, MAX_TARGET);
    EmptyBlockIs(rules, BlockHash(y), now + 3, MAX_TARGET);
    EmptyIsPlain(rules, BlockHash(genesis), now + 1);
    EmptyIsPlain(rules, BlockHash(genesis), now + 2);
    EmptyIsPlain(rules, BlockHash(y), now + 3);
  }

  lemma {:induction false} BothAreValid(rules: Rules, genesis: Block, t: Block, y: Block, z: Block)
    requires Mineable(rules, genesis) && ThreeBlocks(rules, genesis, t, y, z)
    ensures ValidChain(rules, [genesis, t]) && ValidChain(rules, [genesis, y, z])
    ensures PlainChain(rules, [genesis, t]) && PlainChain(rules, [genesis, y, z])
  {
    PlainExtends(rules, [genesis], t);
    PlainExtends(rules, [genesis], y);
    assert [genesis] + [t] == [genesis, t] && [genesis] + [y] == [genesis, y] && [genesis, y] + [z] == [genesis, y, z];
    PlainExtends(rules, [genesis, y], z);
  }

  lemma {:induction false} FirstSwitch(rules: Rules, e: Engine, genesis: Block, t: Block, y: Block, z: Block)
    requires Mineable(rules, genesis) && ThreeBlocks(rules, genesis, t, y, z) && SetUp(rules, e)
    requires e.chain == [genesis, t] && DepthAllowed(e, 0)
    ensures Ancestor(e.chain, [genesis, y, z]) == 0
    ensures Evaluate(e, [genesis, y, z]).Switched? && Adopted(e.chain, [genesis, y, z]) == [genesis, y, z]
  {
    var candidate := [genesis, y, z];
    BothAreValid(rules, genesis, t, y, z);
    HighestSharedIsHighest(e.chain, candidate, 1);
    assert candidate[1..] == [y, z];
    PlainSwitch(rules, e, candidate, 0);
  }

  lemma {:induction false} SecondSwitch(rules: Rules, e: Engine, genesis: Block, t: Block, y: Block, z: Block)
    requires Mineable(rules, genesis) && ThreeBlocks(rules, genesis, t, y, z) && SetUp(rules, e)
    requires e.chain == [genesis, y, z]
    ensures Ancestor(e.chain, [genesis, y, z, t]) == 2
    ensures Evaluate(e, [genesis, y, z, t]).Switched? && Adopted(e.chain, [genesis, y, z, t]) == [genesis, y, z, t]
  {
    var candidate := [genesis, y, z, t];
    BothAreValid(rules, genesis, t, y, z);
    assert candidate[3..] == [t];
    PlainSwitch(rules, e, candidate, 2);
  }

  lemma {:induction false} TwoSwitches(e: Engine, c: seq<Block>, d: seq<Block>, f: seq<Block>)
    requires c != [] && d != [] && f != []
    requires Evaluate(e.(chain := c), d).Switched? && Adopted(c, d) == d
    requires Evaluate(e.(chain := d), f).Switched? && Adopted(d, f) == f
    ensures Switches(e, [c, d, f], [d, f])
  {
    var chains, candidates := [c, d, f], [d, f];
    forall i | 0 <= i < |candidates| ensures SwitchAt(e, chains, candidates, i) {
      if i == 0 {
        assert chains[i] == c && candidates[i] == d && chains[i + 1] == d;
      } else {
        assert chains[i] == d && candidates[i] == f && chains[i + 1] == f;
      }
    }
  }

  /**
   From one chain the ledger accepts to another, and from there, through a block that does not link,
   back to the tip left behind: the first and the third chain end with t.
   */
  lemma {:induction false} AbandonedTipReturns(rules: Rules, e: Engine, genesis: Block)
    returns (t: Block, y: Block, z: Block)
    requires Mineable(rules, genesis) && SetUp(rules, e) && (e.maxDepth.Some? ==> e.maxDepth.value >= 1)
    ensures ThreeBlocks(rules, genesis, t, y, z)
    ensures ValidChain(rules, [genesis, t]) && ValidChain(rules, [genesis, y, z])
    ensures Switches(e, [[genesis, t], [genesis, y, z], [genesis, y, z, t]], [[genesis, y, z], [genesis, y, z, t]])
  {
    t, y, z := ThreeBlocksExist(rules, genesis);
    BothAreValid(rules, genesis, t, y, z);
    FirstSwitch(rules, e.(chain := [genesis, t]), genesis, t, y, z);
    SecondSwitch(rules, e.(chain := [genesis, y, z]), genesis, t, y, z);
    TwoSwitches(e, [genesis, t], [genesis, y, z], [genesis, y, z, t]);
  }
}
