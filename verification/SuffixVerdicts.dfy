/** What becomes of a candidate's suffix: which faults refuse it and which leave the engine as exceptions. */
module SuffixVerdicts {
  import opened Wrappers
  import opened Types
  import opened Governance
  import opened Registry
  import opened Blocks
  import opened ForkChoice

  /** The registry state once the first k blocks of a suffix are applied to `s`, the state at `height`. */
  function SuffixState(ctx: Context, s: State, blocks: seq<Block>, k: nat, height: nat): Result<State, Fault>
    requires k <= |blocks|
  {
    if k == 0 then Ok(s)
    else
      match SuffixState(ctx, s, blocks, k - 1, height)
      case Err(fault) => Err(fault)
      case Ok(below) => ApplyAll(ctx, below, blocks[k - 1].transactions, height + k)
  }

  /** A suffix as fork choice is given it: on state `s` at `height`, one target expected of each block. */
  datatype Offer = Offer(ctx: Context, powValue: Hash -> nat, s: State, blocks: seq<Block>, height: nat,
                         targets: seq<nat>)

  /** Block k links, except the first, and carries version, target, work, Merkle root and registry root. */
  predicate SoundAt(o: Offer, k: nat)
    requires |o.targets| == |o.blocks| && k < |o.blocks|
  {
    var b, below := o.blocks[k], SuffixState(o.ctx, o.s, o.blocks, k, o.height);
    && (k > 0 ==> b.header.prevHash == HeaderHash(o.blocks[k - 1].header))
    && b.header.version == 2 && b.header.target == o.targets[k]
    && o.powValue(HeaderHash(b.header)) <= o.targets[k]
    && b.header.merkleRoot == MerkleRootOf(b)
    && below.Ok? && b.header.registryRoot == RegistryRoot(below.value)
  }

  ghost predicate SoundBelow(o: Offer, n: nat)
    requires |o.targets| == |o.blocks| && n <= |o.blocks|
  {
    forall k: nat :: k < n ==> SoundAt(o, k)
  }

  /** Everything below block k is sound, and so is k itself, but its transactions end in the fault. */
  ghost predicate FaultsAt(o: Offer, k: nat, fault: Fault)
    requires |o.targets| == |o.blocks|
  {
    k < |o.blocks| && SoundBelow(o, k + 1) && SuffixState(o.ctx, o.s, o.blocks, k + 1, o.height) == Err(fault)
  }

  function Judged(o: Offer, k: nat): Result<seq<State>, Refusal>
    requires |o.targets| == |o.blocks| && k <= |o.blocks| && SuffixState(o.ctx, o.s, o.blocks, k, o.height).Ok?
  {
    SuffixFrom(o.ctx, o.powValue, SuffixState(o.ctx, o.s, o.blocks, k, o.height).value,
               if k == 0 then None else Some(BlockHash(o.blocks[k - 1])), o.blocks, k, o.height, Some(o.targets))
  }

  lemma {:induction false} OneJudged(o: Offer, k: nat)
    requires |o.targets| == |o.blocks| && k < |o.blocks| && SuffixState(o.ctx, o.s, o.blocks, k, o.height).Ok?
    ensures var next := SuffixState(o.ctx, o.s, o.blocks, k + 1, o.height);
            && (!SoundAt(o, k) ==> Judged(o, k) == Err(ReorgError))
            && (SoundAt(o, k) && next == Err(GovernanceFault) ==> Judged(o, k) == Err(ReorgError))
            && (SoundAt(o, k) && next == Err(RegistryFault) ==> Judged(o, k) == Err(RegistryError))
            && (SoundAt(o, k) && next.Ok? ==> Judged(o, k) == Behind([next.value], Judged(o, k + 1)))
  {
  }

  /** Where the state still stands no block below has ended in a fault. */
  lemma {:induction false} FaultsLieAbove(o: Offer, k: nat, i: nat, fault: Fault)
    requires |o.targets| == |o.blocks| && k <= |o.blocks| && SuffixState(o.ctx, o.s, o.blocks, k, o.height).Ok?
    ensures FaultsAt(o, i, fault) ==> k <= i < |o.blocks| && SoundBelow(o, i + 1)
  {
    if i < |o.blocks| {
      StateStaysFaulty(o, i + 1, k);
    }
  }

  /** An unsound block hides every fault from there on. */
  lemma {:induction false} UnsoundHidesFaults(o: Offer, k: nat)
    requires |o.targets| == |o.blocks| && k < |o.blocks| && SuffixState(o.ctx, o.s, o.blocks, k, o.height).Ok?
    requires !SoundAt(o, k)
    ensures !SoundBelow(o, |o.blocks|) && !exists i: nat :: FaultsAt(o, i, RegistryFault)
  {
    forall i: nat ensures !FaultsAt(o, i, RegistryFault) {
      FaultsLieAbove(o, k, i, RegistryFault);
    }
  }

  /** The first fault is the one that counts. */
  lemma {:induction false} FirstFaultCounts(o: Offer, k: nat)
    requires |o.targets| == |o.blocks| && k < |o.blocks| && SoundBelow(o, k + 1)
    requires SuffixState(o.ctx, o.s, o.blocks, k, o.height).Ok?
    requires SuffixState(o.ctx, o.s, o.blocks, k + 1, o.height).Err?
    ensures SuffixState(o.ctx, o.s, o.blocks, |o.blocks|, o.height).Err?
    ensures SuffixState(o.ctx, o.s, o.blocks, k + 1, o.height) == Err(RegistryFault)
            <==> exists i: nat :: FaultsAt(o, i, RegistryFault)
  {
    StateStaysFaulty(o, k + 1, |o.blocks|);
    if SuffixState(o.ctx, o.s, o.blocks, k + 1, o.height) == Err(RegistryFault) {
      assert FaultsAt(o, k, RegistryFault);
    }
    forall i: nat | FaultsAt(o, i, RegistryFault) ensures i == k {
      FaultsLieAbove(o, k, i, RegistryFault);
      assert SoundAt(o, i);
      StateStaysFaulty(o, k + 1, i);
    }
  }

  lemma {:induction false} NoFaultAtTheEnd(o: Offer)
    requires |o.targets| == |o.blocks| && SuffixState(o.ctx, o.s, o.blocks, |o.blocks|, o.height).Ok?
    ensures !exists i: nat :: FaultsAt(o, i, RegistryFault)
  {
    forall i: nat ensures !FaultsAt(o, i, RegistryFault) {
      if i < |o.blocks| {
        StateStaysFaulty(o, i + 1, |o.blocks|);
      }
    }
  }

  lemma {:induction false} JudgedFrom(o: Offer, k: nat)
    requires |o.targets| == |o.blocks| && k <= |o.blocks| && SoundBelow(o, k)
    requires SuffixState(o.ctx, o.s, o.blocks, k, o.height).Ok?
    ensures Judged(o, k).Ok?
            <==> SoundBelow(o, |o.blocks|) && SuffixState(o.ctx, o.s, o.blocks, |o.blocks|, o.height).Ok?
    ensures Judged(o, k) == Err(RegistryError) <==> exists i: nat :: FaultsAt(o, i, RegistryFault)
    ensures Judged(o, k) != Err(GovernanceError)
    decreases |o.blocks| - k
  {
    if k == |o.blocks| {
      NoFaultAtTheEnd(o);
    } else {
      OneJudged(o, k);
      if !SoundAt(o, k) {
        UnsoundHidesFaults(o, k);
      } else if SuffixState(o.ctx, o.s, o.blocks, k + 1, o.height).Ok? {
        JudgedFrom(o, k + 1);
      } else {
        FirstFaultCounts(o, k);
      }
    }
  }

  lemma {:induction false} StateStaysFaulty(o: Offer, i: nat, j: nat)
    requires i <= |o.blocks| && j <= |o.blocks|
    ensures i <= j && SuffixState(o.ctx, o.s, o.blocks, i, o.height).Err?
            ==> SuffixState(o.ctx, o.s, o.blocks, j, o.height).Err?
    decreases j
  {
    if i < j {
      StateStaysFaulty(o, i, j - 1);
    }
  }

  /** The suffix the engine judges, on the state at the fork. */
  function OfferAt(e: Engine, candidate: seq<Block>): Offer
    requires e.chain != [] && candidate != []
    requires StateAfter(EngineContext(e), e.chain, Ancestor(e.chain, candidate)).Ok?
  {
    var h := Ancestor(e.chain, candidate);
    Offer(EngineContext(e), e.powValue, StateAfter(EngineContext(e), e.chain, h).value, candidate[h + 1..], h,
          EngineTargets(e.chain, h, |candidate| - 1 - h))
  }

  /** The candidate gets as far as having its suffix judged. */
  predicate ReachesJudgement(e: Engine, candidate: seq<Block>)
    requires e.chain != []
  {
    && candidate != [] && BlockHash(candidate[0]) == BlockHash(e.chain[0])
    && var h := Ancestor(e.chain, candidate);
       && (e.maxDepth.Some? ==> |e.chain| - 1 - h <= e.maxDepth.value)
       && StateAfter(EngineContext(e), e.chain, h).Ok? && TargetFault(e, h, |candidate| - 1 - h).None?
  }

  ghost predicate SoundSuffix(o: Offer)
    requires |o.targets| == |o.blocks|
  {
    SoundBelow(o, |o.blocks|) && SuffixState(o.ctx, o.s, o.blocks, |o.blocks|, o.height).Ok?
  }

  ghost predicate RegistryFails(o: Offer)
    requires |o.targets| == |o.blocks|
  {
    exists k: nat :: FaultsAt(o, k, RegistryFault)
  }

  /** What the judgement of the suffix makes of the verdict. */
  predicate FollowsFrom(v: Verdict, h: nat, judged: Result<seq<State>, Refusal>) {
    match judged
    case Err(ReorgError) => v == Kept(InvalidSuffix, h)
    case Err(refusal) => v == Raised(refusal)
    case Ok(_) => v !in {Kept(InvalidSuffix, h), Raised(RegistryError), Raised(GovernanceError)}
  }

  lemma {:induction false} ReachedUnfolds(e: Engine, candidate: seq<Block>)
    requires e.chain != [] && ReachesJudgement(e, candidate)
    ensures var h := Ancestor(e.chain, candidate);
            Evaluate(e, candidate) == Judge(e, candidate, h, StateAfter(EngineContext(e), e.chain, h).value)
  {
  }

  lemma {:induction false} JudgementDecides(e: Engine, candidate: seq<Block>, h: nat, s: State)
    requires h < |e.chain| && h < |candidate|
    ensures var targets := EngineTargets(e.chain, h, |candidate| - 1 - h);
            FollowsFrom(Judge(e, candidate, h, s), h,
                        SuffixFrom(EngineContext(e), e.powValue, s, None, candidate[h + 1..], 0, h, Some(targets)))
  {
  }

  lemma {:induction false} JudgedWhole(o: Offer)
    requires |o.targets| == |o.blocks|
    ensures Judged(o, 0) == SuffixFrom(o.ctx, o.powValue, o.s, None, o.blocks, 0, o.height, Some(o.targets))
  {
  }

  lemma {:induction false} VerdictFollows(e: Engine, candidate: seq<Block>)
    requires e.chain != [] && ReachesJudgement(e, candidate)
    ensures FollowsFrom(Evaluate(e, candidate), Ancestor(e.chain, candidate), Judged(OfferAt(e, candidate), 0))
  {
    var h := Ancestor(e.chain, candidate);
    JudgedWhole(OfferAt(e, candidate));
    ReachedUnfolds(e, candidate);
    JudgementDecides(e, candidate, h, StateAfter(EngineContext(e), e.chain, h).value);
  }

  /**
   A suffix that is not sound to the end keeps the current chain, except that a registry fault in an otherwise
   sound block leaves the engine as an exception.
   */
  lemma {:induction false} FaultySuffixVerdict(e: Engine, candidate: seq<Block>)
    requires e.chain != [] && ReachesJudgement(e, candidate)
    ensures var o, v, h := OfferAt(e, candidate), Evaluate(e, candidate), Ancestor(e.chain, candidate);
            && (v == Raised(RegistryError) <==> RegistryFails(o))
            && (v == Kept(InvalidSuffix, h) <==> !SoundSuffix(o) && !RegistryFails(o))
  {
    VerdictFollows(e, candidate);
    JudgedFrom(OfferAt(e, candidate), 0);
  }

  /** How far up the current chain targets are computed by replaying it: below its tip, and as far as the candidate. */
  function ReplayedTo(e: Engine, candidate: seq<Block>): nat
    requires e.chain != [] && candidate != []
  {
    if |candidate| < |e.chain| then |candidate| - 1 else |e.chain| - 1
  }

  /**
   A governance fault leaves the engine as an exception exactly when it lies in the current chain itself: up to
   the fork under the default network id, or below the last target computed under the identity's own.
   */
  lemma {:induction false} GovernanceErrorExactlyWhen(e: Engine, candidate: seq<Block>)
    requires e.chain != []
    ensures Evaluate(e, candidate) == Raised(GovernanceError)
            <==> && candidate != [] && BlockHash(candidate[0]) == BlockHash(e.chain[0])
                 && var h, top := Ancestor(e.chain, candidate), ReplayedTo(e, candidate);
                    && (e.maxDepth.Some? ==> |e.chain| - 1 - h <= e.maxDepth.value)
                    && var state := StateAfter(EngineContext(e), e.chain, h);
                       || state == Err(GovernanceFault)
                       || (state.Ok? && top > h
                           && StateAfter(TargetContext(e), e.chain, top - 1) == Err(GovernanceFault))
  {
    if candidate != [] && BlockHash(candidate[0]) == BlockHash(e.chain[0]) && ReachesJudgement(e, candidate) {
      VerdictFollows(e, candidate);
      JudgedFrom(OfferAt(e, candidate), 0);
    }
  }
}
