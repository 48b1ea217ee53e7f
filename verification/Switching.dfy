/**
 What a switch of the reorg engine adopts: its own chain up to the fork, and above it the candidate's
 blocks. Work grows with every switch whatever the candidates are; the rest of what one expects of the
 adopted chain hangs on the first link above the fork, which the engine leaves to its caller.
 */
module Switching {
  import opened Wrappers
  import opened Types
  import opened Governance
  import opened Registry
  import opened Blocks
  import opened Chain
  import opened ForkChoice
  import opened ForkAgreement
  import opened LongestChain

  /** The current chain up to the fork, the candidate above it. */
  function Adopted(current: seq<Block>, candidate: seq<Block>): (chain: seq<Block>)
    requires current != [] && candidate != []
    ensures |chain| == |candidate|
  {
    current[..Ancestor(current, candidate) + 1] + candidate[Ancestor(current, candidate) + 1..]
  }

  lemma {:induction false} AdoptedParts(current: seq<Block>, candidate: seq<Block>, a: nat)
    requires current != [] && candidate != [] && a == Ancestor(current, candidate)
    ensures Adopted(current, candidate)[..a + 1] == current[..a + 1]
    ensures Adopted(current, candidate)[a + 1..] == candidate[a + 1..]
    ensures forall i ::
              0 <= i < |candidate| ==> Adopted(current, candidate)[i] == if i <= a then current[i] else candidate[i]
  {
  }

  /** What a verdict to switch says about the fork. */
  lemma {:induction false} SwitchedUnfolds(e: Engine, candidate: seq<Block>) returns (a: nat)
    requires e.chain != [] && Evaluate(e, candidate).Switched?
    ensures candidate != [] && BlockHash(candidate[0]) == BlockHash(e.chain[0]) && a == Ancestor(e.chain, candidate)
    ensures a < |e.chain| && a < |candidate| && Evaluate(e, candidate) == SwitchTo(e.chain, candidate, a)
    ensures Accepted(e, candidate, a) && Work(candidate[a + 1..]) > Work(e.chain[a + 1..])
  {
    a := HeavierAboveFork(e, candidate);
    if !Accepted(e, candidate, a) {
      UnacceptedUnfolds(e, candidate);
    }
  }

  lemma {:induction false} HeavierAboveFork(e: Engine, candidate: seq<Block>) returns (a: nat)
    requires e.chain != [] && Evaluate(e, candidate).Switched?
    ensures candidate != [] && BlockHash(candidate[0]) == BlockHash(e.chain[0]) && a == Ancestor(e.chain, candidate)
    ensures a < |e.chain| && a < |candidate| && Evaluate(e, candidate) == SwitchTo(e.chain, candidate, a)
    ensures Work(candidate[a + 1..]) > Work(e.chain[a + 1..])
  {
    a := Ancestor(e.chain, candidate);
  }

  // ---------- work grows, linked or not ----------

  /** Every switch adopts a chain with strictly more work, whatever the candidate looks like. */
  lemma {:induction false} SwitchIncreasesWork(e: Engine, candidate: seq<Block>)
    requires e.chain != [] && Evaluate(e, candidate).Switched?
    ensures candidate != [] && Work(Adopted(e.chain, candidate)) > Work(e.chain)
  {
    var a := SwitchedUnfolds(e, candidate);
    HeavierAboveIsHeavier(e.chain, candidate, a);
  }

  lemma {:induction false} HeavierAboveIsHeavier(current: seq<Block>, candidate: seq<Block>, a: nat)
    requires current != [] && candidate != [] && a == Ancestor(current, candidate)
    requires Work(candidate[a + 1..]) > Work(current[a + 1..])
    ensures Work(Adopted(current, candidate)) > Work(current)
  {
    WorkOfConcat(current[..a + 1], candidate[a + 1..]);
    WorkOfConcat(current[..a + 1], current[a + 1..]);
    assert current == current[..a + 1] + current[a + 1..];
  }

  /** Of linked chains the adopted one has the candidate's headers. */
  lemma {:induction false} AdoptedIsTheCandidate(current: seq<Block>, candidate: seq<Block>)
    requires LinkedChain(current) && LinkedChain(candidate) && BlockHash(candidate[0]) == BlockHash(current[0])
    ensures SameHeaders(Adopted(current, candidate), candidate)
    ensures Work(Adopted(current, candidate)) == Work(candidate)
  {
    var a, chain := Ancestor(current, candidate), Adopted(current, candidate);
    AncestorEndsCommonPrefix(current, candidate);
    forall i | 0 <= i < |chain| ensures chain[i].header == candidate[i].header {
      assert i <= a ==> current[..a + 1][i].header == candidate[..a + 1][i].header;
    }
    WorkOfHeaders(chain, candidate);
  }

  // ---------- the plan of a switch ----------

  /** From height k on the two chains have no block hash in common. */
  ghost predicate Parted(a: seq<Block>, b: seq<Block>, k: nat) {
    forall i :: k <= i < |a| && i < |b| ==> BlockHash(a[i]) != BlockHash(b[i])
  }

  lemma {:induction false} PartedAboveAncestor(a: seq<Block>, b: seq<Block>, k: nat)
    requires a != [] && b != [] && BlockHash(a[0]) == BlockHash(b[0])
    ensures Parted(a, b, k) <==> k > Ancestor(a, b)
  {
    HighestSharedIsHighest(a, b, Shorter(a, b) - 1);
    var h := Ancestor(a, b);
    if k <= h {
      assert BlockHash(a[h]) == BlockHash(b[h]);
    }
  }

  lemma {:induction false} InHeights(from: nat, to: nat, k: nat)
    requires from <= to
    ensures k in Heights(from, to) <==> from <= k < to
  {
    if from <= k < to {
      assert Heights(from, to)[k - from] == k;
    }
  }

  /**
   The heights to disconnect and to connect are exactly those from which on the chains have nothing in
   common, and carrying the plan out gives the adopted chain with the reported tip.
   */
  lemma {:induction false} SwitchPlanIsExact(e: Engine, candidate: seq<Block>, k: nat)
    requires e.chain != [] && Evaluate(e, candidate).Switched?
    ensures candidate != []
    ensures var v, chain := Evaluate(e, candidate), Adopted(e.chain, candidate);
            && (k in v.disconnect <==> k < |e.chain| && Parted(e.chain, candidate, k))
            && (k in v.connect <==> k < |candidate| && Parted(e.chain, candidate, k))
            && (k < |chain| && k in v.connect ==> chain[k] == candidate[k])
            && (k < |chain| && k !in v.connect ==> k < |e.chain| && k !in v.disconnect && chain[k] == e.chain[k])
            && v.tipHeight == |chain| - 1 && v.tipHash == BlockHash(chain[v.tipHeight])
  {
    var a := SwitchedUnfolds(e, candidate);
    PlanUnfolds(e, candidate, a, k);
    AdoptedParts(e.chain, candidate, a);
    TipIsAboveFork(e.chain, candidate, a);
  }

  lemma {:induction false} PlanUnfolds(e: Engine, candidate: seq<Block>, a: nat, k: nat)
    requires e.chain != [] && candidate != [] && BlockHash(candidate[0]) == BlockHash(e.chain[0])
    requires a == Ancestor(e.chain, candidate)
    ensures var v := SwitchTo(e.chain, candidate, a);
            && (k in v.disconnect <==> k < |e.chain| && k > a && Parted(e.chain, candidate, k))
            && (k in v.connect <==> k < |candidate| && k > a && Parted(e.chain, candidate, k))
            && (Parted(e.chain, candidate, k) <==> k > a)
  {
    InHeights(a + 1, |e.chain|, k);
    InHeights(a + 1, |candidate|, k);
    PartedAboveAncestor(e.chain, candidate, k);
  }

  lemma {:induction false} TipIsAboveFork(current: seq<Block>, candidate: seq<Block>, a: nat)
    requires a < |current| && a < |candidate| && Work(candidate[a + 1..]) > Work(current[a + 1..])
    ensures a + 1 < |candidate|
  {
    var theirs := candidate[a + 1..];
    assert theirs == [] ==> Work(theirs) == 0;
  }

  // ---------- links ----------

  lemma {:induction false} AcceptedLinksAt(ctx: Context, powValue: Hash -> nat, s: State, prev: Option<Hash>,
                                           blocks: seq<Block>,
                                           k: nat, height: nat, targets: seq<nat>, i: nat)
    requires k < i < |blocks| <= |targets|
    requires SuffixFrom(ctx, powValue, s, prev, blocks, k, height, Some(targets)).Ok?
    ensures blocks[i].header.prevHash == BlockHash(blocks[i - 1])
    decreases |blocks| - k
  {
    SuffixUnfolds(ctx, powValue, s, prev, blocks, k, height, Some(targets));
    var next := ApplyAll(ctx, s, blocks[k].transactions, height + 1 + k).value;
    if k + 1 < i {
      AcceptedLinksAt(ctx, powValue, next, Some(BlockHash(blocks[k])), blocks, k + 1, height, targets, i);
    } else {
      SuffixUnfolds(ctx, powValue, next, Some(BlockHash(blocks[k])), blocks, k + 1, height, Some(targets));
    }
  }

  lemma {:induction false} AcceptedIsLinkedInside(e: Engine, candidate: seq<Block>, a: nat, j: nat)
    requires a < |e.chain| && a + 1 < j < |candidate| && Accepted(e, candidate, a)
    ensures Linked(candidate, j)
  {
    AcceptedLinksAt(EngineContext(e), e.powValue, StateAfter(EngineContext(e), e.chain, a).value, None,
                    candidate[a + 1..],
                    0, a, EngineTargets(e.chain, a, |candidate| - 1 - a), j - a - 1);
    assert candidate[a + 1..][j - a - 1] == candidate[j] && candidate[a + 1..][j - a - 2] == candidate[j - 1];
  }

  /**
   The adopted chain is linked exactly when its first block above the fork is: the one link the engine does
   not look at.
   */
  lemma {:induction false} AdoptedIsLinkedExactlyWhen(e: Engine, candidate: seq<Block>)
    requires LinkedChain(e.chain) && Evaluate(e, candidate).Switched?
    ensures candidate != []
    ensures var chain := Adopted(e.chain, candidate);
            LinkedChain(chain) <==> LinkedNext(chain, Ancestor(e.chain, candidate))
  {
    var a := SwitchedUnfolds(e, candidate);
    var chain := Adopted(e.chain, candidate);
    AdoptedParts(e.chain, candidate, a);
    if LinkedNext(chain, a) {
      forall i | 0 < i < |chain| ensures Linked(chain, i) {
        if i <= a {
          assert Linked(e.chain, i);
        } else if i > a + 1 {
          AcceptedIsLinkedInside(e, candidate, a, i);
        }
      }
    }
  }

  // ---------- no tip comes back ----------

  lemma {:induction false} DepthOnChain(chain: seq<Block>, i: nat)
    requires LinkedChain(chain) && i < |chain|
    ensures PrevDepth(BlockHash(chain[i])) == PrevDepth(BlockHash(chain[0])) + i
  {
    if i > 0 {
      assert Linked(chain, i);
      DepthOnChain(chain, i - 1);
    }
  }

  /** The tip's hash fixes the whole chain of headers. */
  lemma {:induction false} TipFixesHeaders(a: seq<Block>, b: seq<Block>)
    requires LinkedChain(a) && LinkedChain(b) && BlockHash(a[0]) == BlockHash(b[0])
    requires BlockHash(a[|a| - 1]) == BlockHash(b[|b| - 1])
    ensures SameHeaders(a, b)
  {
    DepthOnChain(a, |a| - 1);
    DepthOnChain(b, |b| - 1);
    forall i | 0 <= i < |a| ensures a[i].header == b[i].header {
      SharedBelow(a, b, |a| - 1, i);
    }
  }

  lemma {:induction false} HeavierTipDiffers(a: seq<Block>, b: seq<Block>)
    requires LinkedChain(a) && LinkedChain(b) && BlockHash(a[0]) == BlockHash(b[0]) && Work(a) < Work(b)
    ensures BlockHash(a[|a| - 1]) != BlockHash(b[|b| - 1])
  {
    if BlockHash(a[|a| - 1]) == BlockHash(b[|b| - 1]) {
      TipFixesHeaders(a, b);
      WorkOfHeaders(a, b);
    }
  }

  /** One switch after the other, each offered some candidate and each adopting the next chain. */
  ghost predicate Switches(e: Engine, chains: seq<seq<Block>>, candidates: seq<seq<Block>>) {
    && |chains| == |candidates| + 1
    && (forall i :: 0 <= i < |candidates| ==> SwitchAt(e, chains, candidates, i))
  }

  predicate SwitchAt(e: Engine, chains: seq<seq<Block>>, candidates: seq<seq<Block>>, i: nat)
    requires i < |candidates| < |chains|
  {
    && chains[i] != [] && candidates[i] != []
    && Evaluate(e.(chain := chains[i]), candidates[i]).Switched?
    && chains[i + 1] == Adopted(chains[i], candidates[i])
  }

  /** The chain adopted by switch i is linked where it leaves the chain before it. */
  predicate ForkIsLinked(chains: seq<seq<Block>>, candidates: seq<seq<Block>>, i: nat)
    requires i < |candidates| < |chains| && chains[i] != [] && candidates[i] != []
  {
    LinkedNext(chains[i + 1], Ancestor(chains[i], candidates[i]))
  }

  /**
   Along any switches total work strictly grows. Nothing is assumed about links, neither of the candidates
   nor of the first chain.
   */
  lemma {:induction false} WorkGrowsWithEverySwitch(e: Engine, chains: seq<seq<Block>>, candidates: seq<seq<Block>>,
                                                    i: nat, j: nat)
    requires Switches(e, chains, candidates) && i < j < |chains|
    ensures Work(chains[i]) < Work(chains[j])
    ensures chains[i] != [] && chains[j] != [] && chains[i][0] == chains[j][0]
    decreases j
  {
    assert SwitchAt(e, chains, candidates, j - 1);
    SwitchIncreasesWork(e.(chain := chains[j - 1]), candidates[j - 1]);
    if i < j - 1 {
      WorkGrowsWithEverySwitch(e, chains, candidates, i, j - 1);
    }
  }

  ghost predicate ForksAreLinked(chains: seq<seq<Block>>, candidates: seq<seq<Block>>) {
    && |chains| == |candidates| + 1
    && (forall i ::
          0 <= i < |candidates|
          ==> chains[i] != [] && candidates[i] != [] && ForkIsLinked(chains, candidates, i))
  }

  lemma {:induction false} ChainsStayLinked(e: Engine, chains: seq<seq<Block>>, candidates: seq<seq<Block>>, i: nat)
    requires Switches(e, chains, candidates) && LinkedChain(chains[0]) && ForksAreLinked(chains, candidates)
             && i < |chains|
    ensures LinkedChain(chains[i])
  {
    if i > 0 {
      ChainsStayLinked(e, chains, candidates, i - 1);
      assert SwitchAt(e, chains, candidates, i - 1) && ForkIsLinked(chains, candidates, i - 1);
      AdoptedIsLinkedExactlyWhen(e.(chain := chains[i - 1]), candidates[i - 1]);
    }
  }

  /** If every adopted chain is linked at its fork, no tip is ever a tip again. */
  lemma {:induction false} NoTipIsReadopted(e: Engine, chains: seq<seq<Block>>, candidates: seq<seq<Block>>, i: nat,
                                            j: nat)
    requires Switches(e, chains, candidates) && LinkedChain(chains[0]) && ForksAreLinked(chains, candidates)
    requires i < j < |chains|
    ensures chains[i] != [] && chains[j] != []
    ensures BlockHash(chains[i][|chains[i]| - 1]) != BlockHash(chains[j][|chains[j]| - 1])
  {
    ChainsStayLinked(e, chains, candidates, i);
    ChainsStayLinked(e, chains, candidates, j);
    WorkGrowsWithEverySwitch(e, chains, candidates, i, j);
    HeavierTipDiffers(chains[i], chains[j]);
  }

  // ---------- when the ledger accepts what was adopted ----------

  lemma {:induction false} ValidUpToFork(rules: Rules, current: seq<Block>, chain: seq<Block>, a: nat)
    requires ValidChain(rules, current) && a < |current| && a < |chain| && chain[..a + 1] == current[..a + 1]
    ensures GenesisValid(rules, chain[0])
    ensures StateAfter(rules.ctx, current, a).Ok?
            && StateAfter(rules.ctx, chain, a) == StateAfter(rules.ctx, current, a)
    ensures ValidChain(rules, chain) <==> AllValid(rules, chain, a + 1)
  {
    assert chain[0] == chain[..a + 1][0] && current[0] == current[..a + 1][0];
    ValidChainsReplay(rules, current, a);
    StateOfPrefix(rules.ctx, current, a + 1, a);
    StateOfPrefix(rules.ctx, chain, a + 1, a);
    forall i | 0 < i <= a ensures ValidAt(rules, chain, i) {
      ValidAtPrefix(rules, current, chain, a, i);
    }
    if AllValid(rules, chain, a + 1) {
      forall i | 0 < i < |chain| ensures ValidAt(rules, chain, i) {}
    }
  }

  lemma {:induction false} ValidAtPrefix(rules: Rules, current: seq<Block>, chain: seq<Block>, a: nat, i: nat)
    requires ValidChain(rules, current) && 0 < i <= a < |current| && a < |chain| && chain[..a + 1] == current[..a + 1]
    ensures ValidAt(rules, chain, i)
  {
    assert chain[..i] == chain[..a + 1][..i] && current[..i] == current[..a + 1][..i];
    assert chain[i] == chain[..a + 1][i] && current[i] == current[..a + 1][i];
    assert ValidAt(rules, current, i);
    HistoryDecides(rules, current, chain, i);
  }

  /** The engine's acceptance, read on the chain it would adopt. */
  lemma {:induction false} AcceptedIsJudged(rules: Rules, e: Engine, candidate: seq<Block>, chain: seq<Block>, a: nat)
    requires SetUp(rules, e) && a < |e.chain| && a < |candidate| && Accepted(e, candidate, a)
    requires |chain| == |candidate| && chain[a + 1..] == candidate[a + 1..]
    ensures var targets := EngineTargets(e.chain, a, |chain| - a - 1);
            && Judged(rules, chain, a, 0, StateAfter(rules.ctx, e.chain, a).value, None, targets).Ok?
            && AllGiven(chain, a, targets, a + 1)
  {
    var s, targets := StateAfter(rules.ctx, e.chain, a).value, EngineTargets(e.chain, a, |chain| - a - 1);
    forall j | a + 1 <= j < |chain| ensures TargetGiven(chain, a, targets, j) {
      AcceptedTargetsAt(rules.ctx, rules.powValue, s, None, candidate[a + 1..], 0, a, targets, j - a - 1);
      assert chain[a + 1..][j - a - 1] == chain[j];
    }
  }

  /**
   After a switch on a ledger chain the ledger accepts the adopted chain exactly when its first block
   above the fork is linked and every adopted block passes the checks only the ledger makes: target
   range, timestamp, schema and validator.
   */
  lemma {:induction false} AdoptedIsValidExactlyWhen(rules: Rules, e: Engine, candidate: seq<Block>)
    requires SetUp(rules, e) && ValidChain(rules, e.chain) && Evaluate(e, candidate).Switched?
    ensures candidate != []
    ensures var a, chain := Ancestor(e.chain, candidate), Adopted(e.chain, candidate);
            ValidChain(rules, chain) <==> LinkedNext(chain, a) && AllLedgerOnly(rules, chain, a + 1)
  {
    var a := SwitchedUnfolds(e, candidate);
    AdoptedParts(e.chain, candidate, a);
    AcceptedOnLedgerChain(rules, e, candidate, Adopted(e.chain, candidate), a);
  }

  lemma {:induction false} AcceptedOnLedgerChain(rules: Rules, e: Engine, candidate: seq<Block>, chain: seq<Block>,
                                                 a: nat)
    requires SetUp(rules, e) && ValidChain(rules, e.chain)
    requires a < |e.chain| && a < |candidate| && Accepted(e, candidate, a)
    requires |chain| == |candidate| && chain[..a + 1] == e.chain[..a + 1] && chain[a + 1..] == candidate[a + 1..]
    ensures ValidChain(rules, chain) <==> LinkedNext(chain, a) && AllLedgerOnly(rules, chain, a + 1)
  {
    ValidUpToFork(rules, e.chain, chain, a);
    AcceptedIsJudged(rules, e, candidate, chain, a);
    SuffixAgrees(rules, chain, a, EngineTargets(e.chain, a, |chain| - a - 1));
  }
}
