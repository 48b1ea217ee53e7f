/** Fork choice: finding the fork point, judging a candidate suffix, comparing work, and switching. */
module ForkChoice {
  import opened Wrappers
  import opened Bytes
  import opened Types
  import opened Governance
  import opened Registry
  import opened Difficulty
  import opened Blocks
  import opened Chain

  const TWO_256: nat := 0x1_0000_0000_0000_0000_0000_0000_0000_0000_0000_0000_0000_0000_0000_0000_0000_0000

  /** The class of exception a call ends with. */
  datatype Refusal = ReorgError | RegistryError | GovernanceError

  // ---------- work ----------

  function BlockWork(b: Block): nat {
    TWO_256 / (b.header.target + 1)
  }

  function Work(blocks: seq<Block>): nat {
    if blocks == [] then 0 else Work(blocks[..|blocks| - 1]) + BlockWork(blocks[|blocks| - 1])
  }

  /** One more block adds the number w with w * (target + 1) at most 2^256, and (w + 1) * (target + 1) above it. */
  lemma {:induction false} BlockAddsWork(blocks: seq<Block>, b: Block, w: nat)
    ensures Work(blocks + [b]) == Work(blocks) + w
            <==> w * (b.header.target + 1) <= TWO_256 < (w + 1) * (b.header.target + 1)
  {
    assert (blocks + [b])[..|blocks|] == blocks;
    QuotientIsExact(TWO_256, b.header.target + 1, w);
  }

  predicate PositiveTargets(blocks: seq<Block>) {
    forall i :: 0 <= i < |blocks| ==> blocks[i].header.target > 0
  }

  method BranchWork(blocks: seq<Block>) returns (r: Result<nat, Refusal>)
    ensures r == if PositiveTargets(blocks) then Ok(Work(blocks)) else Err(ReorgError)
  {
    var total := 0;
    for i := 0 to |blocks|
      invariant total == Work(blocks[..i]) && PositiveTargets(blocks[..i])
    {
      if blocks[i].header.target <= 0 {
        return Err(ReorgError);
      }
      total := total + BlockWork(blocks[i]);
      assert blocks[..i + 1][..i] == blocks[..i];
    }
    assert blocks[..|blocks|] == blocks;
    return Ok(total);
  }

  lemma {:induction false} WorkOfConcat(a: seq<Block>, b: seq<Block>)
    ensures Work(a + b) == Work(a) + Work(b)
    decreases |b|
  {
    if b == [] {
      assert a + b == a;
    } else {
      assert (a + b)[..|a + b| - 1] == a + b[..|b| - 1];
      WorkOfConcat(a, b[..|b| - 1]);
    }
  }

  ghost predicate SameHeaders(a: seq<Block>, b: seq<Block>) {
    |a| == |b| && forall i :: 0 <= i < |a| ==> a[i].header == b[i].header
  }

  lemma {:induction false} WorkOfHeaders(a: seq<Block>, b: seq<Block>)
    requires SameHeaders(a, b)
    ensures Work(a) == Work(b)
    decreases |a|
  {
    if a != [] {
      WorkOfHeaders(a[..|a| - 1], b[..|b| - 1]);
    }
  }

  /** With a shared prefix, comparing suffix work is comparing total work. */
  lemma {:induction false} SuffixWorkDecides(a: seq<Block>, b: seq<Block>, n: nat)
    requires n <= |a| && n <= |b| && SameHeaders(a[..n], b[..n])
    ensures Work(b) - Work(a) == Work(b[n..]) - Work(a[n..])
  {
    WorkOfConcat(a[..n], a[n..]);
    WorkOfConcat(b[..n], b[n..]);
    WorkOfHeaders(a[..n], b[..n]);
    assert a == a[..n] + a[n..] && b == b[..n] + b[n..];
  }

  function CompareWork(current: nat, candidate: nat): Comparison {
    if candidate > current then CandidateWins else if candidate < current then CurrentWins else Tie
  }

  datatype Comparison = CandidateWins | CurrentWins | Tie

  // ---------- the fork point ----------

  ghost predicate LinkedChain(chain: seq<Block>) {
    chain != [] && forall i :: 0 < i < |chain| ==> Linked(chain, i)
  }

  function Shorter(a: seq<Block>, b: seq<Block>): nat {
    if |a| < |b| then |a| else |b|
  }

  /** The highest height up to h with equal hashes, or 0. */
  function HighestShared(a: seq<Block>, b: seq<Block>, h: nat): (r: nat)
    requires h < |a| && h < |b|
    ensures r <= h
  {
    if h == 0 || BlockHash(a[h]) == BlockHash(b[h]) then h else HighestShared(a, b, h - 1)
  }

  function Ancestor(a: seq<Block>, b: seq<Block>): (h: nat)
    requires a != [] && b != []
    ensures h < |a| && h < |b|
  {
    HighestShared(a, b, Shorter(a, b) - 1)
  }

  method FindCommonAncestor(a: seq<Block>, b: seq<Block>) returns (r: Result<nat, Refusal>)
    ensures r == if a == [] || b == [] || BlockHash(a[0]) != BlockHash(b[0]) then Err(ReorgError)
            else Ok(Ancestor(a, b))
  {
    if a == [] || b == [] { return Err(ReorgError); }
    if BlockHash(a[0]) != BlockHash(b[0]) { return Err(ReorgError); }
    var h := Shorter(a, b);
    while h > 0
      invariant 0 <= h <= Shorter(a, b)
      invariant h == 0 || HighestShared(a, b, h - 1) == Ancestor(a, b)
      invariant h == 0 ==> Ancestor(a, b) == 0
    {
      h := h - 1;
      if BlockHash(a[h]) == BlockHash(b[h]) { return Ok(h); }
    }
    return Ok(0);
  }

  lemma {:induction false} SharedBelow(a: seq<Block>, b: seq<Block>, h: nat, i: nat)
    requires LinkedChain(a) && LinkedChain(b) && i <= h < Shorter(a, b) && BlockHash(a[h]) == BlockHash(b[h])
    ensures a[i].header == b[i].header
    decreases h
  {
    if i < h {
      assert Linked(a, h) && Linked(b, h);
      SharedBelow(a, b, h - 1, i);
    }
  }

  lemma {:induction false} HighestSharedIsHighest(a: seq<Block>, b: seq<Block>, h: nat)
    requires h < |a| && h < |b| && BlockHash(a[0]) == BlockHash(b[0])
    ensures var s := HighestShared(a, b, h);
            && s <= h && BlockHash(a[s]) == BlockHash(b[s])
            && forall i :: s < i <= h ==> BlockHash(a[i]) != BlockHash(b[i])
  {
    if h > 0 && BlockHash(a[h]) != BlockHash(b[h]) {
      HighestSharedIsHighest(a, b, h - 1);
    }
  }

  /** On linked chains from one genesis the common ancestor ends the longest common header prefix. */
  lemma {:induction false} AncestorEndsCommonPrefix(a: seq<Block>, b: seq<Block>)
    requires LinkedChain(a) && LinkedChain(b) && BlockHash(a[0]) == BlockHash(b[0])
    ensures var h := Ancestor(a, b);
            && h < Shorter(a, b)
            && SameHeaders(a[..h + 1], b[..h + 1])
            && forall i :: h < i < Shorter(a, b) ==> a[i].header != b[i].header
  {
    HighestSharedIsHighest(a, b, Shorter(a, b) - 1);
    var h := Ancestor(a, b);
    forall i | 0 <= i < h + 1 ensures a[i].header == b[i].header {
      SharedBelow(a, b, h, i);
    }
    forall i | h < i < Shorter(a, b) ensures a[i].header != b[i].header {
      assert BlockHash(a[i]) != BlockHash(b[i]);
    }
  }

  // ---------- judging a suffix ----------

  predicate SuffixBlockOk(b: Block, s: State, prev: Option<Hash>, target: Option<nat>, powValue: Hash -> nat) {
    && (prev.Some? ==> b.header.prevHash == prev.value)
    && b.header.version == PROTOCOL_VERSION
    && powValue(BlockHash(b)) <= b.header.target
    && (target.Some? ==> b.header.target == target.value)
    && b.header.merkleRoot == MerkleRootOf(b)
    && b.header.registryRoot == RegistryRoot(s)
  }

  function Surfaced(fault: Fault): Refusal {
    match fault
    case GovernanceFault => ReorgError
    case RegistryFault => RegistryError
  }

  function TargetOf(targets: Option<seq<nat>>, k: nat): Option<nat>
    requires targets.Some? ==> k < |targets.value|
  {
    match targets
    case None => None
    case Some(t) => Some(t[k])
  }

  /** The states after each block from position k on, `height` being the height below the suffix. */
  function SuffixFrom(ctx: Context, powValue: Hash -> nat, s: State, prev: Option<Hash>, blocks: seq<Block>, k: nat,
                      height: nat, targets: Option<seq<nat>>): Result<seq<State>, Refusal>
    requires k <= |blocks| && (targets.Some? ==> |blocks| <= |targets.value|)
    decreases |blocks| - k
  {
    if k == |blocks| then Ok([])
    else if !SuffixBlockOk(blocks[k], s, prev, TargetOf(targets, k), powValue) then Err(ReorgError)
    else
      match ApplyAll(ctx, s, blocks[k].transactions, height + 1 + k)
      case Err(fault) => Err(Surfaced(fault))
      case Ok(next) =>
        Behind([next], SuffixFrom(ctx, powValue, next, Some(BlockHash(blocks[k])), blocks, k + 1, height, targets))
  }

  function Behind(first: seq<State>, rest: Result<seq<State>, Refusal>): Result<seq<State>, Refusal> {
    match rest
    case Err(e) => Err(e)
    case Ok(states) => Ok(first + states)
  }

  lemma {:induction false} BehindTwice(a: seq<State>, b: seq<State>, rest: Result<seq<State>, Refusal>)
    ensures Behind(a, Behind(b, rest)) == Behind(a + b, rest)
    ensures Behind([], rest) == rest
  {
    if rest.Ok? {
      assert a + (b + rest.value) == a + b + rest.value;
      assert [] + rest.value == rest.value;
    }
  }

  lemma {:induction false} SuffixUnfolds(ctx: Context, powValue: Hash -> nat, s: State, prev: Option<Hash>,
                                         blocks: seq<Block>, k: nat,
                                         height: nat, targets: Option<seq<nat>>)
    requires k < |blocks| && (targets.Some? ==> |blocks| <= |targets.value|)
    ensures SuffixFrom(ctx, powValue, s, prev, blocks, k, height, targets)
            == if !SuffixBlockOk(blocks[k], s, prev, TargetOf(targets, k), powValue) then Err(ReorgError)
               else match ApplyAll(ctx, s, blocks[k].transactions, height + 1 + k)
                    case Err(fault) => Err(Surfaced(fault))
                    case Ok(next) => Behind([next],
                                            SuffixFrom(ctx, powValue, next, Some(BlockHash(blocks[k])), blocks, k + 1,
                                                       height, targets))
  {
  }

  method ValidateCandidateSuffix(ctx: Context, powValue: Hash -> nat, common: State, blocks: seq<Block>, height: nat,
                                 targets: Option<seq<nat>>) returns (r: Result<seq<State>, Refusal>)
    requires targets.Some? ==> |blocks| <= |targets.value|
    ensures r == SuffixFrom(ctx, powValue, common, None, blocks, 0, height, targets)
  {
    var states: seq<State>, s, prev := [], common, None;
    BehindTwice([], [], SuffixFrom(ctx, powValue, common, None, blocks, 0, height, targets));
    for k := 0 to |blocks|
      invariant SuffixFrom(ctx, powValue, common, None, blocks, 0, height, targets)
             == Behind(states, SuffixFrom(ctx, powValue, s, prev, blocks, k, height, targets))
    {
      SuffixUnfolds(ctx, powValue, s, prev, blocks, k, height, targets);
      if !SuffixBlockOk(blocks[k], s, prev, TargetOf(targets, k), powValue) {
        return Err(ReorgError);
      }
      var next := ApplyTransactions(ctx, s, blocks[k].transactions, height + 1 + k);
      if next.Err? {
        return Err(Surfaced(next.error));
      }
      BehindTwice(states, [next.value],
                  SuffixFrom(ctx, powValue, next.value, Some(BlockHash(blocks[k])), blocks, k + 1, height, targets));
      states, s, prev := states + [next.value], next.value, Some(BlockHash(blocks[k]));
    }
    assert states + [] == states;
    return Ok(states);
  }

  // ---------- the engine ----------

  /**
   Fork choice replays under the default network id; only its targets are computed under `networkId`, the
   identity's own.
   */
  datatype Engine = Engine(chain: seq<Block>, keys: seq<bytes>, threshold: nat, networkId: bytes, maxDepth: Option<nat>,
                           verify: (bytes, Hash, bytes) -> bool, powValue: Hash -> nat)

  function EngineContext(e: Engine): Context {
    Context(e.keys, e.threshold, NETWORK_ID, e.verify)
  }

  /** Exact inside the current chain; beyond its tip the tip's target is taken over. */
  function EngineTargetAt(chain: seq<Block>, height: nat): nat
    requires chain != []
  {
    if height == 0 then GENESIS_TARGET
    else if height < |chain| then ExpectedTargetAt(chain[..height], height)
    else chain[|chain| - 1].header.target
  }

  function EngineTargets(chain: seq<Block>, start: nat, n: nat): (r: seq<nat>)
    requires chain != []
    ensures |r| == n
  {
    seq<nat>(n, k requires 0 <= k < n => EngineTargetAt(chain, start + 1 + k))
  }

  function TargetContext(e: Engine): Context {
    Context(e.keys, e.threshold, e.networkId, e.verify)
  }

  /** A target inside the current chain is asked of a ledger built on the blocks below it, whose replay can raise. */
  function TargetFault(e: Engine, h: nat, n: nat): Option<Fault>
    requires e.chain != []
  {
    var top := if h + n < |e.chain| then h + n else |e.chain| - 1;
    if top <= h then None
    else
      match StateAfter(TargetContext(e), e.chain, top - 1)
      case Err(fault) => Some(fault)
      case Ok(_) => None
  }

  method ComputeTargets(e: Engine, h: nat, n: nat) returns (r: Result<seq<nat>, Fault>)
    requires h < |e.chain|
    ensures r == match TargetFault(e, h, n) case Some(fault) => Err(fault) case None => Ok(EngineTargets(e.chain, h, n))
  {
    var targets: seq<nat> := [];
    for k := 0 to n
      invariant targets == EngineTargets(e.chain, h, k)
      invariant TargetFault(e, h, k).None?
    {
      var height := h + 1 + k;
      if height < |e.chain| {
        StateOfPrefix(TargetContext(e), e.chain, height, height - 1);
        var replayed := Replay(TargetContext(e), e.chain[..height], height - 1);
        if replayed.Err? {
          FaultOnTheWay(e, h, n, height);
          return Err(replayed.error);
        }
      }
      OneMoreTarget(e, h, k);
      targets := targets + [EngineTargetAt(e.chain, height)];
    }
    return Ok(targets);
  }

  lemma {:induction false} FaultOnTheWay(e: Engine, h: nat, n: nat, height: nat)
    requires h < height <= h + n && height < |e.chain| && StateAfter(TargetContext(e), e.chain, height - 1).Err?
    ensures TargetFault(e, h, n) == Some(StateAfter(TargetContext(e), e.chain, height - 1).error)
  {
    ReplayStaysStuck(TargetContext(e), e.chain, height - 1, (if h + n < |e.chain| then h + n else |e.chain| - 1) - 1);
  }

  lemma {:induction false} OneMoreTarget(e: Engine, h: nat, k: nat)
    requires h < |e.chain| && TargetFault(e, h, k).None?
    requires h + 1 + k < |e.chain| ==> StateAfter(TargetContext(e), e.chain, h + k).Ok?
    ensures TargetFault(e, h, k + 1).None?
    ensures EngineTargets(e.chain, h, k + 1) == EngineTargets(e.chain, h, k) + [EngineTargetAt(e.chain, h + 1 + k)]
  {
  }

  datatype Reason = EmptyCandidate | OtherGenesis | TooDeep | InvalidSuffix | NotMoreWork

  datatype Verdict =
    | Kept(reason: Reason, ancestor: nat)
    | Switched(ancestor: nat, tipHeight: nat, tipHash: Hash, disconnect: seq<nat>, connect: seq<nat>)
    | Raised(refusal: Refusal)

  function FromReplay(fault: Fault): Refusal {
    match fault
    case GovernanceFault => GovernanceError
    case RegistryFault => RegistryError
  }

  function Evaluate(e: Engine, candidate: seq<Block>): Verdict
    requires e.chain != []
  {
    if candidate == [] then Kept(EmptyCandidate, 0)
    else if BlockHash(candidate[0]) != BlockHash(e.chain[0]) then Kept(OtherGenesis, 0)
    else
      var h := Ancestor(e.chain, candidate);
      if e.maxDepth.Some? && |e.chain| - 1 - h > e.maxDepth.value then Kept(TooDeep, h)
      else
        match (StateAfter(EngineContext(e), e.chain, h), TargetFault(e, h, |candidate| - 1 - h))
        case (Err(fault), _) => Raised(FromReplay(fault))
        case (Ok(_), Some(fault)) => Raised(FromReplay(fault))
        case (Ok(s), None) => Judge(e, candidate, h, s)
  }

  function Judge(e: Engine, candidate: seq<Block>, h: nat, s: State): Verdict
    requires h < |e.chain| && h < |candidate|
  {
    var ours, theirs := e.chain[h + 1..], candidate[h + 1..];
    match SuffixFrom(EngineContext(e), e.powValue, s, None, theirs, 0, h, Some(EngineTargets(e.chain, h, |theirs|)))
    case Err(ReorgError) => Kept(InvalidSuffix, h)
    case Err(refusal) => Raised(refusal)
    case Ok(_) =>
      if !PositiveTargets(theirs) || !PositiveTargets(ours) then Raised(ReorgError)
      else if CompareWork(Work(ours), Work(theirs)) != CandidateWins then Kept(NotMoreWork, h)
      else SwitchTo(e.chain, candidate, h)
  }

  function Heights(from: nat, to: nat): (r: seq<nat>)
    requires from <= to
    ensures |r| == to - from && forall i :: 0 <= i < |r| ==> r[i] == from + i
  {
    seq<nat>(to - from, i requires 0 <= i < to - from => from + i)
  }

  function SwitchTo(current: seq<Block>, candidate: seq<Block>, h: nat): Verdict
    requires h < |current| && h < |candidate|
  {
    Switched(h, |candidate| - 1, BlockHash(candidate[|candidate| - 1]), Heights(h + 1, |current|),
             Heights(h + 1, |candidate|))
  }

  method EvaluateCandidate(e: Engine, candidate: seq<Block>) returns (v: Verdict)
    requires e.chain != []
    ensures v == Evaluate(e, candidate)
  {
    if candidate == [] { return Kept(EmptyCandidate, 0); }
    if BlockHash(candidate[0]) != BlockHash(e.chain[0]) { return Kept(OtherGenesis, 0); }
    var ancestor := FindCommonAncestor(e.chain, candidate);
    var h := ancestor.value;
    if e.maxDepth.Some? && |e.chain| - 1 - h > e.maxDepth.value { return Kept(TooDeep, h); }
    var common := Replay(EngineContext(e), e.chain, h);
    if common.Err? { return Raised(FromReplay(common.error)); }
    var targets := ComputeTargets(e, h, |candidate| - 1 - h);
    if targets.Err? { return Raised(FromReplay(targets.error)); }
    v := JudgeSuffix(e, candidate, h, common.value, targets.value);
  }

  method JudgeSuffix(e: Engine, candidate: seq<Block>, h: nat, s: State, targets: seq<nat>) returns (v: Verdict)
    requires h < |e.chain| && h < |candidate| && targets == EngineTargets(e.chain, h, |candidate| - 1 - h)
    ensures v == Judge(e, candidate, h, s)
  {
    var ours, theirs := e.chain[h + 1..], candidate[h + 1..];
    var checked := ValidateCandidateSuffix(EngineContext(e), e.powValue, s, theirs, h, Some(targets));
    if checked.Err? {
      return if checked.error.ReorgError? then Kept(InvalidSuffix, h) else Raised(checked.error);
    }
    var candidateWork := BranchWork(theirs);
    if candidateWork.Err? { return Raised(ReorgError); }
    var currentWork := BranchWork(ours);
    if currentWork.Err? { return Raised(ReorgError); }
    if CompareWork(currentWork.value, candidateWork.value) != CandidateWins { return Kept(NotMoreWork, h); }
    return SwitchTo(e.chain, candidate, h);
  }
}
