/**
 What fork choice amounts to. The targets it expects of a candidate are those of the current chain,
 so among the suffixes it accepts more work means more blocks, by either measure of work.
 */
module LongestChain {
  import opened Wrappers
  import opened Types
  import opened Governance
  import opened Registry
  import opened Difficulty
  import opened Blocks
  import opened Chain
  import opened ForkChoice
  import opened ForkAgreement

  // ---------- the targets the engine expects ----------

  /** The candidate's target at height j is the current chain's there, or its tip's beyond it. */
  predicate FollowsAt(current: seq<Block>, candidate: seq<Block>, j: nat)
    requires current != [] && j < |candidate|
  {
    candidate[j].header.target == current[if j < |current| then j else |current| - 1].header.target
  }

  ghost predicate Follows(current: seq<Block>, candidate: seq<Block>, a: nat)
    requires current != []
  {
    forall j :: a < j < |candidate| ==> FollowsAt(current, candidate, j)
  }

  lemma {:induction false} EngineTargetIsCurrents(current: seq<Block>, j: nat)
    requires OnTarget(current) && 0 < j
    ensures EngineTargetAt(current, j) == current[if j < |current| then j else |current| - 1].header.target
  {
    if j < |current| {
      assert OnTargetAt(current, j);
      ExpectedTargetOfPrefix(current, j, j);
    }
  }

  /** Having the expected targets is following the current chain's. */
  lemma {:induction false} GivenIsFollowing(current: seq<Block>, candidate: seq<Block>, a: nat)
    requires OnTarget(current) && a < |candidate|
    ensures AllGiven(candidate, a, EngineTargets(current, a, |candidate| - a - 1), a + 1)
            <==> Follows(current, candidate, a)
  {
    var targets := EngineTargets(current, a, |candidate| - a - 1);
    forall j | a < j < |candidate| ensures TargetGiven(candidate, a, targets, j) <==> FollowsAt(current, candidate, j) {
      EngineTargetIsCurrents(current, j);
      assert targets[j - a - 1] == EngineTargetAt(current, a + 1 + (j - a - 1));
    }
    if AllGiven(candidate, a, targets, a + 1) {
      forall j | a < j < |candidate| ensures FollowsAt(current, candidate, j) {
        assert TargetGiven(candidate, a, targets, j);
      }
    }
    if Follows(current, candidate, a) {
      forall j | a + 1 <= j < |candidate| ensures TargetGiven(candidate, a, targets, j) {
        assert FollowsAt(current, candidate, j);
      }
    }
  }

  lemma {:induction false} AcceptedTargetsAt(ctx: Context, powValue: Hash -> nat, s: State, prev: Option<Hash>,
                                             blocks: seq<Block>, k: nat,
                                             height: nat, targets: seq<nat>, i: nat)
    requires k <= i < |blocks| <= |targets|
    requires SuffixFrom(ctx, powValue, s, prev, blocks, k, height, Some(targets)).Ok?
    ensures blocks[i].header.target == targets[i]
    decreases |blocks| - k
  {
    SuffixUnfolds(ctx, powValue, s, prev, blocks, k, height, Some(targets));
    if k < i {
      var next := ApplyAll(ctx, s, blocks[k].transactions, height + 1 + k).value;
      AcceptedTargetsAt(ctx, powValue, next, Some(BlockHash(blocks[k])), blocks, k + 1, height, targets, i);
    }
  }

  /** The engine can judge the candidate's suffix above height a, and accepts it. */
  predicate Accepted(e: Engine, candidate: seq<Block>, a: nat)
    requires a < |e.chain| && a < |candidate|
  {
    && StateAfter(EngineContext(e), e.chain, a).Ok?
    && TargetFault(e, a, |candidate| - 1 - a).None?
    && SuffixFrom(EngineContext(e), e.powValue, StateAfter(EngineContext(e), e.chain, a).value, None,
                  candidate[a + 1..], 0, a,
                  Some(EngineTargets(e.chain, a, |candidate| - 1 - a))).Ok?
  }

  /** Whatever else is in it, an accepted suffix has the current chain's targets. */
  lemma {:induction false} AcceptedFollows(e: Engine, candidate: seq<Block>, a: nat)
    requires OnTarget(e.chain) && a < |e.chain| && a < |candidate| && Accepted(e, candidate, a)
    ensures Follows(e.chain, candidate, a)
  {
    var targets := EngineTargets(e.chain, a, |candidate| - 1 - a);
    forall j | a + 1 <= j < |candidate| ensures TargetGiven(candidate, a, targets, j) {
      AcceptedTargetsAt(EngineContext(e), e.powValue, StateAfter(EngineContext(e), e.chain, a).value, None,
                        candidate[a + 1..], 0, a,
                        targets, j - a - 1);
      assert candidate[a + 1..][j - a - 1] == candidate[j];
    }
    GivenIsFollowing(e.chain, candidate, a);
  }

  // ---------- any measure of work ----------

  /** Work by a measure f of single targets. */
  function Total(blocks: seq<Block>, f: nat -> nat): nat {
    if blocks == [] then 0 else Total(blocks[..|blocks| - 1], f) + f(blocks[|blocks| - 1].header.target)
  }

  /** The engine's measure and the ledger's. */
  function EngineMeasure(): nat -> nat {
    (t: nat) => TWO_256 / (t + 1)
  }

  function LedgerMeasure(): nat -> nat {
    (t: nat) => if t == 0 then 0 else MAX_TARGET / t
  }

  lemma {:induction false} WorkIsTotal(blocks: seq<Block>)
    ensures Work(blocks) == Total(blocks, EngineMeasure())
    decreases |blocks|
  {
    if blocks != [] {
      WorkIsTotal(blocks[..|blocks| - 1]);
    }
  }

  lemma {:induction false} ChainWorkIsTotal(blocks: seq<Block>)
    requires PositiveWork(blocks)
    ensures ChainWork(blocks) == Total(blocks, LedgerMeasure())
    decreases |blocks|
  {
    if blocks != [] {
      ChainWorkIsTotal(blocks[..|blocks| - 1]);
    }
  }

  lemma {:induction false} TotalOfConcat(a: seq<Block>, b: seq<Block>, f: nat -> nat)
    ensures Total(a + b, f) == Total(a, f) + Total(b, f)
    decreases |b|
  {
    if b == [] {
      assert a + b == a;
    } else {
      assert (a + b)[..|a + b| - 1] == a + b[..|b| - 1];
      TotalOfConcat(a, b[..|b| - 1], f);
    }
  }

  ghost predicate SameTargets(a: seq<Block>, b: seq<Block>) {
    |a| == |b| && forall i :: 0 <= i < |a| ==> a[i].header.target == b[i].header.target
  }

  lemma {:induction false} TotalOfTargets(a: seq<Block>, b: seq<Block>, f: nat -> nat)
    requires SameTargets(a, b)
    ensures Total(a, f) == Total(b, f)
    decreases |a|
  {
    if a != [] {
      TotalOfTargets(a[..|a| - 1], b[..|b| - 1], f);
    }
  }

  ghost predicate Counts(blocks: seq<Block>, f: nat -> nat) {
    forall i :: 0 <= i < |blocks| ==> f(blocks[i].header.target) >= 1
  }

  lemma {:induction false} TotalCounts(blocks: seq<Block>, f: nat -> nat)
    requires Counts(blocks, f)
    ensures Total(blocks, f) >= |blocks|
    decreases |blocks|
  {
    if blocks != [] {
      TotalCounts(blocks[..|blocks| - 1], f);
    }
  }

  /**
   Where one list is the other with more blocks, any measure that gives each block something orders them by
   length.
   */
  lemma {:induction false} LongerIsMore(a: seq<Block>, b: seq<Block>, f: nat -> nat)
    requires |a| <= |b| && SameTargets(a, b[..|a|]) && Counts(b, f)
    ensures Total(b, f) >= Total(a, f) + (|b| - |a|) && (|a| == |b| ==> Total(a, f) == Total(b, f))
  {
    assert b == b[..|a|] + b[|a|..];
    TotalOfConcat(b[..|a|], b[|a|..], f);
    TotalOfTargets(a, b[..|a|], f);
    forall i | 0 <= i < |b[|a|..]| ensures f(b[|a|..][i].header.target) >= 1 {
      assert b[|a|..][i] == b[|a| + i];
    }
    TotalCounts(b[|a|..], f);
  }

  lemma {:induction false} FollowersOrderByLength(current: seq<Block>, candidate: seq<Block>, a: nat, f: nat -> nat)
    requires a < |current| && a < |candidate| && Follows(current, candidate, a) && Counts(current, f)
    ensures CompareWork(Total(current[a + 1..], f), Total(candidate[a + 1..], f)) == CompareWork(|current|, |candidate|)
  {
    var ours, theirs := current[a + 1..], candidate[a + 1..];
    forall i | 0 <= i < |theirs|
      ensures theirs[i] == candidate[a + 1 + i] && FollowsAt(current, candidate, a + 1 + i)
    {}
    forall i | 0 <= i < |theirs| ensures f(theirs[i].header.target) >= 1 {
      assert FollowsAt(current, candidate, a + 1 + i);
    }
    if |current| <= |candidate| {
      LongerIsMore(ours, theirs, f);
    } else {
      LongerIsMore(theirs, ours, f);
    }
  }

  // ---------- both measures order accepted suffixes alike ----------

  /** A chain on target that starts in range: what every ledger chain is. */
  ghost predicate Regular(chain: seq<Block>) {
    OnTarget(chain) && MIN_TARGET <= chain[0].header.target <= MAX_TARGET
  }

  lemma {:induction false} RegularCounts(chain: seq<Block>)
    requires Regular(chain)
    ensures Counts(chain, EngineMeasure()) && Counts(chain, LedgerMeasure()) && PositiveWork(chain)
  {
    forall i | 0 <= i < |chain|
      ensures EngineMeasure()(chain[i].header.target) >= 1 && LedgerMeasure()(chain[i].header.target) >= 1
    {
      TargetsStayInRange(chain, i);
      TargetCounts(chain[i].header.target);
    }
    forall i | 0 <= i < |chain| ensures chain[i].header.target > 0 {
      TargetsStayInRange(chain, i);
    }
  }

  lemma {:induction false} TargetCounts(t: nat)
    requires MIN_TARGET <= t <= MAX_TARGET
    ensures TWO_256 / (t + 1) >= 1 && MAX_TARGET / t >= 1
  {
    DivMonotone(t + 1, TWO_256, t + 1);
    DivExact(1, t + 1);
    DivMonotone(t, MAX_TARGET, t);
    DivExact(1, t);
  }

  /** Above the fork the engine's measure, the ledger's and the number of blocks give one and the same comparison. */
  lemma {:induction false} SuffixesOrderByLength(current: seq<Block>, candidate: seq<Block>, a: nat)
    requires Regular(current) && a < |current| && a < |candidate| && Follows(current, candidate, a)
    ensures CompareWork(Work(current[a + 1..]), Work(candidate[a + 1..])) == CompareWork(|current|, |candidate|)
    ensures CompareWork(Total(current[a + 1..], LedgerMeasure()), Total(candidate[a + 1..], LedgerMeasure()))
            == CompareWork(|current|, |candidate|)
    ensures PositiveTargets(current[a + 1..]) && PositiveTargets(candidate[a + 1..])
  {
    RegularCounts(current);
    FollowersOrderByLength(current, candidate, a, EngineMeasure());
    FollowersOrderByLength(current, candidate, a, LedgerMeasure());
    WorkIsTotal(current[a + 1..]);
    WorkIsTotal(candidate[a + 1..]);
    var theirs := candidate[a + 1..];
    forall i | 0 <= i < |theirs| ensures theirs[i].header.target > 0 {
      assert FollowsAt(current, candidate, a + 1 + i);
    }
  }

  /**
   On every suffix the engine accepts, its own measure of work, the ledger's and the length order
   the two chains alike, over the whole chains: the measures differ but never disagree.
   */
  lemma {:induction false} MeasuresAgree(e: Engine, candidate: seq<Block>)
    requires Regular(e.chain) && LinkedChain(e.chain) && LinkedChain(candidate)
             && BlockHash(e.chain[0]) == BlockHash(candidate[0])
    requires Accepted(e, candidate, Ancestor(e.chain, candidate))
    ensures PositiveWork(e.chain) && PositiveWork(candidate)
    ensures CompareWork(Work(e.chain), Work(candidate)) == CompareWork(|e.chain|, |candidate|)
    ensures CompareWork(ChainWork(e.chain), ChainWork(candidate)) == CompareWork(|e.chain|, |candidate|)
  {
    AcceptedFollows(e, candidate, Ancestor(e.chain, candidate));
    AncestorEndsCommonPrefix(e.chain, candidate);
    WholeChainsOrderByLength(e.chain, candidate, Ancestor(e.chain, candidate));
  }

  lemma {:induction false} WholeChainsOrderByLength(current: seq<Block>, candidate: seq<Block>, a: nat)
    requires Regular(current) && a < |current| && a < |candidate| && Follows(current, candidate, a)
    requires SameHeaders(current[..a + 1], candidate[..a + 1])
    ensures PositiveWork(current) && PositiveWork(candidate)
    ensures CompareWork(Work(current), Work(candidate)) == CompareWork(|current|, |candidate|)
    ensures CompareWork(ChainWork(current), ChainWork(candidate)) == CompareWork(|current|, |candidate|)
  {
    SuffixesOrderByLength(current, candidate, a);
    SuffixWorkDecides(current, candidate, a + 1);
    RegularCounts(current);
    forall i | 0 <= i < |candidate| ensures candidate[i].header.target > 0 {
      if i <= a {
        assert current[..a + 1][i].header == candidate[..a + 1][i].header;
      } else {
        assert FollowsAt(current, candidate, i);
      }
    }
    ChainWorkIsTotal(current);
    ChainWorkIsTotal(candidate);
    SuffixTotals(current, candidate, a + 1, LedgerMeasure());
  }

  lemma {:induction false} SuffixTotals(a: seq<Block>, b: seq<Block>, n: nat, f: nat -> nat)
    requires n <= |a| && n <= |b| && SameHeaders(a[..n], b[..n])
    ensures Total(b, f) - Total(a, f) == Total(b[n..], f) - Total(a[n..], f)
  {
    assert a == a[..n] + a[n..] && b == b[..n] + b[n..];
    TotalOfConcat(a[..n], a[n..], f);
    TotalOfConcat(b[..n], b[n..], f);
    TotalOfTargets(a[..n], b[..n], f);
  }

  // ---------- when the engine switches ----------

  predicate DepthAllowed(e: Engine, a: nat) {
    e.maxDepth.Some? ==> |e.chain| - 1 - a <= e.maxDepth.value
  }

  lemma {:induction false} TooDeepUnfolds(e: Engine, candidate: seq<Block>)
    requires e.chain != [] && candidate != [] && BlockHash(candidate[0]) == BlockHash(e.chain[0])
    requires !DepthAllowed(e, Ancestor(e.chain, candidate))
    ensures Evaluate(e, candidate) == Kept(TooDeep, Ancestor(e.chain, candidate))
  {
  }

  lemma {:induction false} UnacceptedUnfolds(e: Engine, candidate: seq<Block>)
    requires e.chain != [] && candidate != [] && BlockHash(candidate[0]) == BlockHash(e.chain[0])
    requires !Accepted(e, candidate, Ancestor(e.chain, candidate))
    ensures !Evaluate(e, candidate).Switched?
  {
  }

  lemma {:induction false} AcceptedUnfolds(e: Engine, candidate: seq<Block>, a: nat)
    requires e.chain != [] && candidate != [] && BlockHash(candidate[0]) == BlockHash(e.chain[0])
    requires a == Ancestor(e.chain, candidate) && DepthAllowed(e, a) && Accepted(e, candidate, a)
    requires PositiveTargets(candidate[a + 1..]) && PositiveTargets(e.chain[a + 1..])
    ensures Evaluate(e, candidate) == if Work(candidate[a + 1..]) > Work(e.chain[a + 1..])
                                      then SwitchTo(e.chain, candidate, a) else Kept(NotMoreWork, a)
  {
  }

  /**
   Fork choice is longest chain: the engine switches exactly to accepted suffixes that end higher, whatever
   they weigh.
   */
  lemma {:induction false} LongestAcceptedWins(e: Engine, candidate: seq<Block>)
    requires Regular(e.chain) && candidate != [] && BlockHash(candidate[0]) == BlockHash(e.chain[0])
    ensures var a := Ancestor(e.chain, candidate);
            Evaluate(e, candidate).Switched?
            <==> DepthAllowed(e, a) && Accepted(e, candidate, a) && |candidate| > |e.chain|
  {
    var a := Ancestor(e.chain, candidate);
    if !DepthAllowed(e, a) {
      TooDeepUnfolds(e, candidate);
    } else if Accepted(e, candidate, a) {
      AcceptedOrders(e, candidate, a);
      AcceptedUnfolds(e, candidate, a);
    } else {
      UnacceptedUnfolds(e, candidate);
    }
  }

  lemma {:induction false} AcceptedOrders(e: Engine, candidate: seq<Block>, a: nat)
    requires Regular(e.chain) && a < |e.chain| && a < |candidate| && Accepted(e, candidate, a)
    ensures PositiveTargets(e.chain[a + 1..]) && PositiveTargets(candidate[a + 1..])
    ensures Work(candidate[a + 1..]) > Work(e.chain[a + 1..]) <==> |candidate| > |e.chain|
  {
    AcceptedFollows(e, candidate, a);
    SuffixesOrderByLength(e.chain, candidate, a);
  }

  // ---------- chains the ledger accepts ----------

  /** Engine and ledger share keys, threshold, signature check and the default network. */
  ghost predicate SetUp(rules: Rules, e: Engine) {
    EngineContext(e) == rules.ctx && e.networkId == NETWORK_ID && e.powValue == rules.powValue
  }

  lemma {:induction false} LedgerChainsAreRegular(rules: Rules, chain: seq<Block>)
    requires StandardGenesis(rules) && ValidChain(rules, chain)
    ensures Regular(chain) && LinkedChain(chain)
  {
    AcceptedChains(rules, chain);
    ValidIsLinked(rules, chain);
  }

  lemma {:induction false} NoTargetFault(rules: Rules, e: Engine, a: nat, n: nat)
    requires SetUp(rules, e) && ValidChain(rules, e.chain)
    ensures TargetFault(e, a, n).None?
  {
    assert TargetContext(e) == rules.ctx;
    var top := if a + n < |e.chain| then a + n else |e.chain| - 1;
    if top > a {
      ValidChainsReplay(rules, e.chain, top - 1);
    }
  }

  /**
   Two ledger chains have one state at the fork, and the candidate's suffix is accepted exactly when it
   follows the current targets.
   */
  lemma {:induction false} LedgerSuffixAtFork(rules: Rules, e: Engine, candidate: seq<Block>, a: nat)
    requires SetUp(rules, e) && StandardGenesis(rules) && ValidChain(rules, e.chain) && ValidChain(rules, candidate)
    requires a < |e.chain| && a < |candidate| && e.chain[a].header == candidate[a].header
    ensures StateAfter(rules.ctx, e.chain, a).Ok? && TargetFault(e, a, |candidate| - 1 - a).None?
    ensures var r := SuffixFrom(EngineContext(e), e.powValue, StateAfter(rules.ctx, e.chain, a).value, None,
                                candidate[a + 1..], 0, a,
                                Some(EngineTargets(e.chain, a, |candidate| - 1 - a)));
            if Follows(e.chain, candidate, a) then r.Ok? && StatesAgree(rules.ctx, candidate, a + 1, r.value)
              else r == Err(ReorgError)
  {
    HeadersFixStates(rules, e.chain, candidate, a);
    NoTargetFault(rules, e, a, |candidate| - 1 - a);
    AcceptedChains(rules, e.chain);
    GivenIsFollowing(e.chain, candidate, a);
    LedgerSuffix(rules, candidate, a, EngineTargets(e.chain, a, |candidate| - a - 1));
  }

  lemma {:induction false} RefusalUnfolds(e: Engine, candidate: seq<Block>)
    requires e.chain != [] && candidate != [] && BlockHash(candidate[0]) == BlockHash(e.chain[0])
    requires var a := Ancestor(e.chain, candidate);
             && DepthAllowed(e, a) && StateAfter(EngineContext(e), e.chain, a).Ok?
             && TargetFault(e, a, |candidate| - 1 - a).None?
             && SuffixFrom(EngineContext(e), e.powValue, StateAfter(EngineContext(e), e.chain, a).value, None,
                           candidate[a + 1..], 0, a,
                           Some(EngineTargets(e.chain, a, |candidate| - 1 - a))) == Err(ReorgError)
    ensures Evaluate(e, candidate) == Kept(InvalidSuffix, Ancestor(e.chain, candidate))
  {
  }

  /**
   The whole verdict on two chains the ledger accepts, on the default network: the candidate wins
   exactly when the fork is not too deep, its targets above the fork are those of the current chain
   (of its tip, beyond it), and it is longer. Weight plays no other part.
   */
  lemma {:induction false} LedgerChainVerdict(rules: Rules, e: Engine, candidate: seq<Block>)
    requires SetUp(rules, e) && StandardGenesis(rules) && ValidChain(rules, e.chain) && ValidChain(rules, candidate)
    ensures var a := Ancestor(e.chain, candidate);
            Evaluate(e, candidate)
            == if !DepthAllowed(e, a) then Kept(TooDeep, a)
               else if !Follows(e.chain, candidate, a) then Kept(InvalidSuffix, a)
               else if |candidate| > |e.chain| then SwitchTo(e.chain, candidate, a)
               else Kept(NotMoreWork, a)
  {
    var a := ForkOfLedgerChains(rules, e.chain, candidate);
    LedgerSuffixAtFork(rules, e, candidate, a);
    if !DepthAllowed(e, a) {
      TooDeepUnfolds(e, candidate);
    } else if Follows(e.chain, candidate, a) {
      SuffixesOrderByLength(e.chain, candidate, a);
      AcceptedUnfolds(e, candidate, a);
    } else {
      RefusalUnfolds(e, candidate);
    }
  }

  lemma {:induction false} ForkOfLedgerChains(rules: Rules, current: seq<Block>, candidate: seq<Block>) returns (a: nat)
    requires StandardGenesis(rules) && ValidChain(rules, current) && ValidChain(rules, candidate)
    ensures BlockHash(current[0]) == BlockHash(candidate[0]) && a == Ancestor(current, candidate)
    ensures current[a].header == candidate[a].header && SameHeaders(current[..a + 1], candidate[..a + 1])
    ensures Regular(current) && Regular(candidate) && LinkedChain(current) && LinkedChain(candidate)
  {
    LedgerChainsAreRegular(rules, current);
    LedgerChainsAreRegular(rules, candidate);
    AncestorEndsCommonPrefix(current, candidate);
    a := Ancestor(current, candidate);
    assert current[..a + 1][a].header == candidate[..a + 1][a].header;
  }

  /**
   So the heavier of two ledger chains is chosen exactly when the candidate follows the current targets, or
   is not heavier.
   */
  lemma {:induction false} HeaviestWinsExactlyWhen(rules: Rules, e: Engine, candidate: seq<Block>)
    requires SetUp(rules, e) && StandardGenesis(rules) && ValidChain(rules, e.chain) && ValidChain(rules, candidate)
    requires DepthAllowed(e, Ancestor(e.chain, candidate))
    ensures var a := Ancestor(e.chain, candidate);
            (Evaluate(e, candidate).Switched? <==> Work(candidate) > Work(e.chain))
            <==> Follows(e.chain, candidate, a) || Work(candidate) <= Work(e.chain)
  {
    var a := ForkOfLedgerChains(rules, e.chain, candidate);
    LedgerChainVerdict(rules, e, candidate);
    if Follows(e.chain, candidate, a) {
      WholeChainsOrderByLength(e.chain, candidate, a);
    }
  }

  // ---------- within one retarget window ----------

  /** No retarget lies between the fork and height h, except one at the first suffix height inside the current chain. */
  predicate SameWindow(current: seq<Block>, a: nat, h: nat) {
    (a + 1) / 10 == h / 10 && (a + 1 < |current| || (a + 1) % 10 != 0)
  }

  lemma {:induction false} ExpectedTargetOfHeaders(a: seq<Block>, b: seq<Block>, height: nat)
    requires SameHeaders(a, b) && a != [] && height <= |a|
    ensures ExpectedTargetAt(a, height) == ExpectedTargetAt(b, height)
  {
  }

  lemma {:induction false} WindowFollowsAt(current: seq<Block>, candidate: seq<Block>, a: nat, h: nat)
    requires OnTarget(current) && OnTarget(candidate) && a < h < |candidate| && a < |current|
    requires SameHeaders(current[..a + 1], candidate[..a + 1]) && SameWindow(current, a, h)
    ensures FollowsAt(current, candidate, h)
  {
    TargetIsConstantInWindow(candidate, a + 1, h);
    assert OnTargetAt(candidate, a + 1);
    ExpectedTargetOfPrefix(current, a + 1, a + 1);
    ExpectedTargetOfPrefix(candidate, a + 1, a + 1);
    ExpectedTargetOfHeaders(current[..a + 1], candidate[..a + 1], a + 1);
    if a + 1 < |current| {
      var n := if h < |current| then h else |current| - 1;
      assert n / 10 == (a + 1) / 10;
      TargetIsConstantInWindow(current, a + 1, n);
      assert OnTargetAt(current, a + 1);
    } else {
      assert a / 10 == (a + 1) / 10;
      TargetIsConstantInWindow(candidate, a, a + 1);
      assert current[..a + 1][a].header == candidate[..a + 1][a].header;
    }
  }

  /** Within one window every ledger chain follows; its suffix passes, and the states returned are the ledger's. */
  lemma {:induction false} SuffixPasses(rules: Rules, e: Engine, candidate: seq<Block>)
    requires SetUp(rules, e) && StandardGenesis(rules) && ValidChain(rules, e.chain) && ValidChain(rules, candidate)
    requires SameWindow(e.chain, Ancestor(e.chain, candidate), |candidate| - 1)
    ensures var a := Ancestor(e.chain, candidate);
            && StateAfter(rules.ctx, e.chain, a).Ok?
            && var r := SuffixFrom(EngineContext(e), e.powValue, StateAfter(rules.ctx, e.chain, a).value, None,
                                   candidate[a + 1..], 0, a,
                                   Some(EngineTargets(e.chain, a, |candidate| - 1 - a)));
               r.Ok? && StatesAgree(rules.ctx, candidate, a + 1, r.value)
  {
    var a := ForkOfLedgerChains(rules, e.chain, candidate);
    forall j | a < j < |candidate| ensures FollowsAt(e.chain, candidate, j) {
      WindowShrinks(e.chain, a, |candidate| - 1, j);
      WindowFollowsAt(e.chain, candidate, a, j);
    }
    LedgerSuffixAtFork(rules, e, candidate, a);
  }

  lemma {:induction false} WindowShrinks(current: seq<Block>, a: nat, h: nat, j: nat)
    requires SameWindow(current, a, h) && a < j <= h
    ensures SameWindow(current, a, j)
  {
  }
}
