/** Fork choice against the ledger: what each asks of the blocks above a fork. */
module ForkAgreement {
  import opened Wrappers
  import opened Types
  import opened Governance
  import opened Registry
  import opened RegistryHistory
  import opened Difficulty
  import opened Blocks
  import opened Chain
  import opened ForkChoice

  // ---------- suffix validation against ledger validation ----------

  /** What the ledger checks of a block and fork choice does not. */
  predicate LedgerOnly(rules: Rules, chain: seq<Block>, j: nat)
    requires 0 < j < |chain|
  {
    OnTargetAt(chain, j) && LedgerChecks(rules, chain[j], MedianBefore(chain, j))
  }

  predicate LedgerChecks(rules: Rules, b: Block, median: int) {
    && MIN_TARGET <= b.header.target <= MAX_TARGET
    && b.header.timestamp > 0
    && b.header.timestamp > median
    && AllPass(b.transactions, rules.schemaValid)
    && AllPass(b.transactions, rules.validator)
  }

  predicate TargetGiven(chain: seq<Block>, a: nat, targets: seq<nat>, j: nat)
    requires a < j < |chain| && |targets| == |chain| - a - 1
  {
    chain[j].header.target == targets[j - a - 1]
  }

  /** One block: fork choice's checks, its link and the ledger-only checks together are the ledger's. */
  lemma {:induction false} BlockAgrees(rules: Rules, chain: seq<Block>, j: nat, prev: Option<Hash>, target: nat)
    requires 0 < j < |chain| && StateAfter(rules.ctx, chain, j - 1).Ok?
    requires prev == Some(BlockHash(chain[j - 1])) || prev == None
    ensures var s := StateAfter(rules.ctx, chain, j - 1).value;
            SuffixBlockOk(chain[j], s, prev, Some(target), rules.powValue) && Linked(chain, j)
            && ApplyAll(rules.ctx, s, chain[j].transactions, j).Ok? && LedgerOnly(rules, chain, j)
            <==> ValidAt(rules, chain, j) && chain[j].header.target == target
  {
    var b, s, median := chain[j], StateAfter(rules.ctx, chain, j - 1).value, MedianBefore(chain, j);
    if Linked(chain, j) {
      LedgerVerifies(rules, b, s, prev, ExpectedTargetAt(chain, j), median);
    }
  }

  lemma {:induction false} LedgerVerifies(rules: Rules, b: Block, s: State, prev: Option<Hash>, expected: nat,
                                          median: int)
    requires prev.Some? ==> b.header.prevHash == prev.value
    ensures b.header.target == expected && b.header.registryRoot == RegistryRoot(s)
            && Verify(rules, b, None, false, Some(median), Some(expected), Some(rules.validator))
            <==> SuffixBlockOk(b, s, prev, Some(expected), rules.powValue) && LedgerChecks(rules, b, median)
  {
  }

  ghost predicate AllLedgerOnly(rules: Rules, chain: seq<Block>, from: nat) {
    forall j :: 0 < from <= j < |chain| ==> LedgerOnly(rules, chain, j)
  }

  ghost predicate AllValid(rules: Rules, chain: seq<Block>, from: nat) {
    forall j :: 0 < from <= j < |chain| ==> ValidAt(rules, chain, j)
  }

  ghost predicate AllGiven(chain: seq<Block>, a: nat, targets: seq<nat>, from: nat)
    requires a < from && |targets| == |chain| - a - 1
  {
    forall j :: from <= j < |chain| ==> TargetGiven(chain, a, targets, j)
  }

  ghost predicate StatesAgree(ctx: Context, chain: seq<Block>, from: nat, states: seq<State>) {
    && |states| == |chain| - from
    && forall i :: 0 <= i < |states| ==> StateAfter(ctx, chain, from + i) == Ok(states[i])
  }

  /** Fork choice's judgement of chain from position a + 1 + k on. */
  function Judged(rules: Rules, chain: seq<Block>, a: nat, k: nat, s: State, prev: Option<Hash>,
                  targets: seq<nat>): Result<seq<State>, Refusal>
    requires a + 1 + k <= |chain| && |targets| == |chain| - a - 1
  {
    SuffixFrom(rules.ctx, rules.powValue, s, prev, chain[a + 1..], k, a, Some(targets))
  }

  predicate PassesOne(rules: Rules, b: Block, height: nat, s: State, prev: Option<Hash>, target: nat) {
    SuffixBlockOk(b, s, prev, Some(target), rules.powValue) && ApplyAll(rules.ctx, s, b.transactions, height).Ok?
  }

  lemma {:induction false} JudgedStep(rules: Rules, chain: seq<Block>, a: nat, k: nat, s: State, prev: Option<Hash>,
                                      targets: seq<nat>)
    requires a + 1 + k < |chain| && |targets| == |chain| - a - 1
    ensures var j := a + 1 + k;
            if PassesOne(rules, chain[j], j, s, prev, targets[k]) then
              var next := ApplyAll(rules.ctx, s, chain[j].transactions, j).value;
              Judged(rules, chain, a, k, s, prev, targets)
              == Behind([next], Judged(rules, chain, a, k + 1, next, Some(BlockHash(chain[j])), targets))
            else Judged(rules, chain, a, k, s, prev, targets).Err?
  {
    assert chain[a + 1..][k] == chain[a + 1 + k];
  }

  predicate LinkedNext(chain: seq<Block>, a: nat) {
    a + 1 < |chain| ==> Linked(chain, a + 1)
  }

  lemma {:induction false} PassingIsLinked(rules: Rules, chain: seq<Block>, a: nat, k: nat, s: State, targets: seq<nat>)
    requires a + 1 + k <= |chain| && |targets| == |chain| - a - 1
    requires Judged(rules, chain, a, k, s, Some(BlockHash(chain[a + k])), targets).Ok?
    ensures LinkedNext(chain, a + k)
  {
    if a + 1 + k < |chain| {
      JudgedStep(rules, chain, a, k, s, Some(BlockHash(chain[a + k])), targets);
    }
  }

  lemma {:induction false} SuffixAgreesFrom(rules: Rules, chain: seq<Block>, a: nat, k: nat, s: State,
                                            prev: Option<Hash>, targets: seq<nat>)
    requires a + 1 + k <= |chain| && |targets| == |chain| - a - 1
    requires StateAfter(rules.ctx, chain, a + k) == Ok(s)
    requires prev == Some(BlockHash(chain[a + k])) || prev == None
    ensures Judged(rules, chain, a, k, s, prev, targets).Ok? && LinkedNext(chain, a + k)
            && AllLedgerOnly(rules, chain, a + 1 + k)
            <==> AllValid(rules, chain, a + 1 + k) && AllGiven(chain, a, targets, a + 1 + k)
    decreases |chain| - k
  {
    var j := a + 1 + k;
    if j < |chain| {
      JudgedStep(rules, chain, a, k, s, prev, targets);
      FirstThenRest(rules, chain, a, targets, j);
      FirstAgrees(rules, chain, a, k, s, prev, targets);
      if PassesOne(rules, chain[j], j, s, prev, targets[k]) {
        var next := ApplyAll(rules.ctx, s, chain[j].transactions, j).value;
        SuffixAgreesFrom(rules, chain, a, k + 1, next, Some(BlockHash(chain[j])), targets);
        if Judged(rules, chain, a, k + 1, next, Some(BlockHash(chain[j])), targets).Ok? {
          PassingIsLinked(rules, chain, a, k + 1, next, targets);
        }
      }
    } else {
      NothingLeft(rules, chain, a, k, s, prev, targets);
    }
  }

  lemma {:induction false} FirstAgrees(rules: Rules, chain: seq<Block>, a: nat, k: nat, s: State, prev: Option<Hash>,
                                       targets: seq<nat>)
    requires a + 1 + k < |chain| && |targets| == |chain| - a - 1
    requires StateAfter(rules.ctx, chain, a + k) == Ok(s)
    requires prev == Some(BlockHash(chain[a + k])) || prev == None
    ensures var j := a + 1 + k;
            PassesOne(rules, chain[j], j, s, prev, targets[k]) && LinkedNext(chain, a + k)
              && LedgerOnly(rules, chain, j)
            <==> ValidAt(rules, chain, j) && TargetGiven(chain, a, targets, j)
  {
    BlockAgrees(rules, chain, a + 1 + k, prev, targets[k]);
  }

  lemma {:induction false} NothingLeft(rules: Rules, chain: seq<Block>, a: nat, k: nat, s: State, prev: Option<Hash>,
                                       targets: seq<nat>)
    requires a + 1 + k == |chain| && |targets| == |chain| - a - 1
    ensures Judged(rules, chain, a, k, s, prev, targets) == Ok([])
    ensures AllLedgerOnly(rules, chain, |chain|) && AllValid(rules, chain, |chain|)
            && AllGiven(chain, a, targets, |chain|)
  {
  }

  lemma {:induction false} SuffixStatesFrom(rules: Rules, chain: seq<Block>, a: nat, k: nat, s: State,
                                            prev: Option<Hash>, targets: seq<nat>)
    requires a + 1 + k <= |chain| && |targets| == |chain| - a - 1
    requires StateAfter(rules.ctx, chain, a + k) == Ok(s)
    requires Judged(rules, chain, a, k, s, prev, targets).Ok?
    ensures StatesAgree(rules.ctx, chain, a + 1 + k, Judged(rules, chain, a, k, s, prev, targets).value)
    decreases |chain| - k
  {
    var j := a + 1 + k;
    if j < |chain| {
      JudgedStep(rules, chain, a, k, s, prev, targets);
      var next := ApplyAll(rules.ctx, s, chain[j].transactions, j).value;
      SuffixStatesFrom(rules, chain, a, k + 1, next, Some(BlockHash(chain[j])), targets);
      StatesPrepend(rules.ctx, chain, j, next,
                    Judged(rules, chain, a, k + 1, next, Some(BlockHash(chain[j])), targets).value);
    } else {
      NothingLeft(rules, chain, a, k, s, prev, targets);
    }
  }

  lemma {:induction false} StatesPrepend(ctx: Context, chain: seq<Block>, from: nat, first: State, rest: seq<State>)
    requires from < |chain| && StateAfter(ctx, chain, from) == Ok(first) && StatesAgree(ctx, chain, from + 1, rest)
    ensures StatesAgree(ctx, chain, from, [first] + rest)
  {
    var states := [first] + rest;
    forall i | 0 <= i < |states| ensures StateAfter(ctx, chain, from + i) == Ok(states[i]) {
      assert i > 0 ==> StateAfter(ctx, chain, from + 1 + (i - 1)) == Ok(rest[i - 1]);
    }
  }

  lemma {:induction false} FirstThenRest(rules: Rules, chain: seq<Block>, a: nat, targets: seq<nat>, j: nat)
    requires a < j < |chain| && |targets| == |chain| - a - 1
    ensures AllLedgerOnly(rules, chain, j) <==> LedgerOnly(rules, chain, j) && AllLedgerOnly(rules, chain, j + 1)
    ensures AllValid(rules, chain, j) <==> ValidAt(rules, chain, j) && AllValid(rules, chain, j + 1)
    ensures AllGiven(chain, a, targets, j) <==> TargetGiven(chain, a, targets, j) && AllGiven(chain, a, targets, j + 1)
  {
  }

  /**
   Above a replayed fork point: fork choice accepts the suffix, its first block is linked (which only
   the caller checks) and the ledger-only checks hold, exactly when the ledger accepts every block
   and the targets expected by fork choice are the blocks' own. The states returned are the ledger's.
   */
  lemma {:induction false} SuffixAgrees(rules: Rules, chain: seq<Block>, a: nat, targets: seq<nat>)
    requires a < |chain| && |targets| == |chain| - a - 1
    requires StateAfter(rules.ctx, chain, a).Ok?
    ensures var r := Judged(rules, chain, a, 0, StateAfter(rules.ctx, chain, a).value, None, targets);
            && (r.Ok? && LinkedNext(chain, a) && AllLedgerOnly(rules, chain, a + 1)
                <==> AllValid(rules, chain, a + 1) && AllGiven(chain, a, targets, a + 1))
            && (r.Ok? ==> StatesAgree(rules.ctx, chain, a + 1, r.value))
  {
    var s := StateAfter(rules.ctx, chain, a).value;
    SuffixAgreesFrom(rules, chain, a, 0, s, None, targets);
    if Judged(rules, chain, a, 0, s, None, targets).Ok? {
      SuffixStatesFrom(rules, chain, a, 0, s, None, targets);
    }
  }

  /** A ledger suffix is refused, if at all, by a ReorgError: no other exception comes out of it. */
  lemma {:induction false} LedgerSuffixRefusal(rules: Rules, chain: seq<Block>, a: nat, k: nat, s: State,
                                               prev: Option<Hash>, targets: seq<nat>)
    requires a + 1 + k <= |chain| && |targets| == |chain| - a - 1
    requires AllValid(rules, chain, a + 1 + k) && StateAfter(rules.ctx, chain, a + k) == Ok(s)
    ensures var r := Judged(rules, chain, a, k, s, prev, targets); r.Ok? || r == Err(ReorgError)
    decreases |chain| - k
  {
    var j := a + 1 + k;
    if j < |chain| {
      assert ValidAt(rules, chain, j);
      assert chain[a + 1..][k] == chain[j];
      SuffixUnfolds(rules.ctx, rules.powValue, s, prev, chain[a + 1..], k, a, Some(targets));
      var next := ApplyAll(rules.ctx, s, chain[j].transactions, j).value;
      LedgerSuffixRefusal(rules, chain, a, k + 1, next, Some(BlockHash(chain[j])), targets);
    }
  }

  lemma {:induction false} ValidIsLedgerOnly(rules: Rules, chain: seq<Block>, from: nat)
    requires AllValid(rules, chain, from)
    ensures AllLedgerOnly(rules, chain, from)
  {
    forall j | 0 < from <= j < |chain| ensures LedgerOnly(rules, chain, j) {
      assert ValidAt(rules, chain, j);
    }
  }

  lemma {:induction false} ValidFrom(rules: Rules, chain: seq<Block>, a: nat)
    requires ValidChain(rules, chain) && a < |chain|
    ensures AllValid(rules, chain, a + 1) && LinkedNext(chain, a) && StateAfter(rules.ctx, chain, a).Ok?
  {
    assert a + 1 < |chain| ==> ValidAt(rules, chain, a + 1);
    ValidChainsReplay(rules, chain, a);
  }

  lemma {:induction false} ValidIsLinked(rules: Rules, chain: seq<Block>)
    requires ValidChain(rules, chain)
    ensures LinkedChain(chain)
  {
    forall i | 0 < i < |chain| ensures Linked(chain, i) {
      assert ValidAt(rules, chain, i);
    }
  }

  /** A suffix the ledger grew passes exactly when its blocks carry the expected targets; if not, with a ReorgError. */
  lemma {:induction false} LedgerSuffix(rules: Rules, chain: seq<Block>, a: nat, targets: seq<nat>)
    requires ValidChain(rules, chain) && a < |chain| && |targets| == |chain| - a - 1
    ensures StateAfter(rules.ctx, chain, a).Ok?
    ensures var r := Judged(rules, chain, a, 0, StateAfter(rules.ctx, chain, a).value, None, targets);
            if AllGiven(chain, a, targets, a + 1) then r.Ok? && StatesAgree(rules.ctx, chain, a + 1, r.value)
              else r == Err(ReorgError)
  {
    ValidFrom(rules, chain, a);
    ValidIsLedgerOnly(rules, chain, a + 1);
    SuffixAgrees(rules, chain, a, targets);
    LedgerSuffixRefusal(rules, chain, a, 0, StateAfter(rules.ctx, chain, a).value, None, targets);
  }

  // ---------- networks other than alpha ----------

  lemma {:induction false} NoMutationOnTwoNetworks(x: Context, y: Context, s: State, t: State,
                                                   transactions: seq<Transaction>, height: nat)
    requires x.networkId != y.networkId
    requires ApplyAll(x, s, transactions, height).Ok? && ApplyAll(y, t, transactions, height).Ok?
    ensures ApplyAll(x, s, transactions, height) == Ok(s) && ApplyAll(y, t, transactions, height) == Ok(t)
    decreases |transactions|
  {
    if transactions != [] {
      NoMutationOnTwoNetworks(x, y, s, t, transactions[1..], height);
    }
  }

  lemma {:induction false} NoMutationsAtAll(x: Context, y: Context, chain: seq<Block>, height: nat)
    requires x.networkId != y.networkId && height < |chain|
    requires StateAfter(x, chain, height).Ok? && StateAfter(y, chain, height).Ok?
    ensures StateAfter(x, chain, height) == Ok(GenesisState(x)) && StateAfter(y, chain, height) == Ok(GenesisState(y))
  {
    if height > 0 {
      NoMutationsAtAll(x, y, chain, height - 1);
      NoMutationOnTwoNetworks(x, y, GenesisState(x), GenesisState(y), chain[height].transactions, height);
    }
  }

  /** Off the default network a ledger state never looks like a fresh state of the default one. */
  lemma {:induction false} ForeignState(rules: Rules, chain: seq<Block>, height: nat)
    requires rules.ctx.networkId != NETWORK_ID && ValidChain(rules, chain) && height < |chain|
    ensures StateAfter(rules.ctx, chain, height).Ok?
    ensures var s := StateAfter(rules.ctx, chain, height).value; s.networkId != NETWORK_ID || s.records != []
  {
    ValidChainsReplay(rules, chain, height);
    ChainIsARun(rules.ctx, chain, height);
    ForeignRun(rules.ctx, MutationsUpTo(chain, height));
  }

  lemma {:induction false} ForeignRun(ctx: Context, steps: seq<Step>)
    requires ctx.networkId != NETWORK_ID && Run(ctx, GenesisState(ctx), steps).Ok?
    ensures var s := Run(ctx, GenesisState(ctx), steps).value; s.networkId != NETWORK_ID || s.records != []
  {
    RunDeepens(ctx, GenesisState(ctx), steps);
    assert RecordsDepth([]) == 0;
  }

  /**
   On any other network the engine never switches to a chain the ledger accepts: it replays under the
   default network id.
   */
  lemma {:induction false} OtherNetworksNeverSwitch(rules: Rules, e: Engine, candidate: seq<Block>)
    requires rules.ctx.networkId != NETWORK_ID && ValidChain(rules, e.chain) && ValidChain(rules, candidate)
    ensures !Evaluate(e, candidate).Switched?
  {
    var a := Ancestor(e.chain, candidate);
    if StateAfter(EngineContext(e), e.chain, a).Ok? {
      RootsDiffer(rules, EngineContext(e), e.chain, candidate, a);
    }
    if a + 1 < |candidate| {
      assert candidate[a + 1..][0] == candidate[a + 1];
    } else {
      assert candidate[a + 1..] == [];
    }
  }

  lemma {:induction false} RootsDiffer(rules: Rules, ctx: Context, current: seq<Block>, candidate: seq<Block>, a: nat)
    requires rules.ctx.networkId != NETWORK_ID == ctx.networkId && ValidChain(rules, current)
             && ValidChain(rules, candidate)
    requires a < |current| && a < |candidate| && StateAfter(ctx, current, a).Ok?
    ensures a + 1 < |candidate|
            ==> candidate[a + 1].header.registryRoot != RegistryRoot(StateAfter(ctx, current, a).value)
  {
    ValidChainsReplay(rules, current, a);
    NoMutationsAtAll(rules.ctx, ctx, current, a);
    ForeignState(rules, candidate, a);
    if a + 1 < |candidate| {
      assert ValidAt(rules, candidate, a + 1);
    }
  }
}
