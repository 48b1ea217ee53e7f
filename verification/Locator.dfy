/** The sparse header locator: which heights it names and how close to any fork it comes. */
module Locator {
  import opened Types

  const MAX_LOCATOR_SIZE := 32

  /** The heights of the entries, from `height` down, when `count` entries are already there. */
  function LocatorHeights(height: int, count: nat, step: nat): (r: seq<nat>)
    ensures r != []
    decreases MAX_LOCATOR_SIZE - count, height
  {
    if height > 0 && count < MAX_LOCATOR_SIZE - 1
    then [height] + LocatorHeights(height - step, count + 1, if count + 1 > 10 then 2 * step else step)
    else [0]
  }

  function HashesAt(chain: seq<Block>, heights: seq<nat>): (r: seq<Hash>)
    requires forall i :: 0 <= i < |heights| ==> heights[i] < |chain|
    ensures |r| == |heights|
  {
    seq(|heights|, i requires 0 <= i < |heights| => BlockHash(chain[heights[i]]))
  }

  method BuildLocator(chain: seq<Block>) returns (locator: seq<Hash>)
    requires chain != []
    ensures var heights := LocatorHeights(|chain| - 1, 0, 1);
            && (forall i :: 0 <= i < |heights| ==> heights[i] < |chain|)
            && locator == HashesAt(chain, heights)
  {
    locator := [];
    var step, height: int := 1, |chain| - 1;
    ghost var named: seq<nat> := [];
    while height > 0 && |locator| < MAX_LOCATOR_SIZE - 1
      invariant height < |chain| && step >= 1
      invariant forall i :: 0 <= i < |named| ==> named[i] < |chain|
      invariant locator == HashesAt(chain, named)
      invariant named + LocatorHeights(height, |locator|, step) == LocatorHeights(|chain| - 1, 0, 1)
      decreases MAX_LOCATOR_SIZE - |locator|
    {
      locator := locator + [BlockHash(chain[height])];
      named := named + [height];
      height := height - step;
      if |locator| > 10 {
        step := step * 2;
      }
    }
    locator := locator + [BlockHash(chain[0])];
    named := named + [0];
  }

  // ---------- the depths in closed form ----------

  function Pow2(n: nat): (r: nat)
    ensures r >= 1
  {
    if n == 0 then 1 else 2 * Pow2(n - 1)
  }

  /** How far below the tip the i-th entry lies. */
  function DepthAt(i: nat): nat {
    if i <= 11 then i else 9 + Pow2(i - 10)
  }

  function StepAt(i: nat): nat {
    if i <= 10 then 1 else Pow2(i - 10)
  }

  lemma {:induction false} DepthGrows(i: nat)
    ensures DepthAt(i + 1) == DepthAt(i) + StepAt(i) && StepAt(i) >= 1
    ensures StepAt(i + 1) == if i + 1 > 10 then 2 * StepAt(i) else StepAt(i)
  {
    assert Pow2(1) == 2 && Pow2(2) == 4;
  }

  lemma {:induction false} DepthIsMonotone(i: nat, j: nat)
    requires i < j
    ensures DepthAt(i) < DepthAt(j)
    decreases j
  {
    DepthGrows(j - 1);
    if i < j - 1 {
      DepthIsMonotone(i, j - 1);
    }
  }

  /** Entry k of a locator continued after i entries lies at depth DepthAt(i + k); the last is genesis. */
  ghost predicate Entries(tip: nat, i: nat, hs: seq<nat>) {
    && hs != [] && hs[|hs| - 1] == 0
    && i + |hs| <= MAX_LOCATOR_SIZE
    && (forall k :: 0 <= k < |hs| - 1 ==> EntryAt(tip, i, hs, k))
    && (i + |hs| == MAX_LOCATOR_SIZE || tip <= DepthAt(i + |hs| - 1))
  }

  predicate EntryAt(tip: nat, i: nat, hs: seq<nat>, k: nat)
    requires k < |hs|
  {
    0 < hs[k] == tip - DepthAt(i + k)
  }

  lemma {:induction false} EntriesFrom(tip: nat, i: nat)
    requires i < MAX_LOCATOR_SIZE
    ensures Entries(tip, i, LocatorHeights(tip - DepthAt(i), i, StepAt(i)))
    decreases MAX_LOCATOR_SIZE - i
  {
    var hs := LocatorHeights(tip - DepthAt(i), i, StepAt(i));
    if tip - DepthAt(i) > 0 && i < MAX_LOCATOR_SIZE - 1 {
      DepthGrows(i);
      EntriesFrom(tip, i + 1);
      var rest := LocatorHeights(tip - DepthAt(i + 1), i + 1, StepAt(i + 1));
      assert hs == [tip - DepthAt(i)] + rest;
      forall k | 0 <= k < |hs| - 1 ensures EntryAt(tip, i, hs, k) {
        assert k > 0 ==> EntryAt(tip, i + 1, rest, k - 1);
      }
    }
  }

  /** From the tip to genesis, strictly downwards, in at most 32 entries at the depths 0 to 11, 13, 17, 25 and so on. */
  lemma {:induction false} LocatorShape(tip: nat)
    ensures var hs := LocatorHeights(tip, 0, 1);
            && 1 <= |hs| <= MAX_LOCATOR_SIZE
            && hs[0] == tip && hs[|hs| - 1] == 0
            && (forall k :: 0 <= k < |hs| - 1 ==> hs[k] == tip - DepthAt(k))
            && (forall k, l :: 0 <= k < l < |hs| ==> hs[k] > hs[l])
  {
    EntriesFrom(tip, 0);
    var hs := LocatorHeights(tip, 0, 1);
    forall k | 0 <= k < |hs| - 1 ensures hs[k] == tip - DepthAt(k) && hs[k] > 0 {
      assert EntryAt(tip, 0, hs, k);
    }
    forall k, l | 0 <= k < l < |hs| ensures hs[k] > hs[l] {
      DepthIsMonotone(k, l);
    }
  }

  // ---------- how close to a fork ----------

  /** The first entry not above the fork, as a peer on the other branch would pick it. */
  function FirstShared(heights: seq<nat>, fork: nat): nat
    requires heights != []
  {
    if |heights| == 1 || heights[0] <= fork then heights[0] else FirstShared(heights[1..], fork)
  }

  lemma {:induction false} FirstSharedAt(heights: seq<nat>, fork: nat, k: nat)
    requires k < |heights| && (forall i :: 0 <= i < k ==> heights[i] > fork)
    requires k == |heights| - 1 || heights[k] <= fork
    ensures FirstShared(heights, fork) == heights[k]
    decreases k
  {
    if k > 0 {
      forall i | 0 <= i < k - 1 ensures heights[1..][i] > fork {
        assert heights[1..][i] == heights[i + 1];
      }
      FirstSharedAt(heights[1..], fork, k - 1);
    }
  }

  /** The first entry of at least a given depth, among the first n. */
  lemma {:induction false} FirstDeepEnough(f: nat, n: nat) returns (i: nat)
    requires f <= DepthAt(n)
    ensures i <= n && f <= DepthAt(i) && (i > 0 ==> DepthAt(i - 1) < f)
    ensures DepthAt(i) <= 2 * f
    decreases n
  {
    if n > 0 && f <= DepthAt(n - 1) {
      i := FirstDeepEnough(f, n - 1);
    } else {
      i := n;
      if i > 11 {
        assert Pow2(i - 10) == 2 * Pow2(i - 11);
        assert i == 12 ==> Pow2(1) == 2;
      }
    }
  }

  /**
   For a fork f blocks below the tip, no deeper than 9 + 2^20, the first shared entry is genesis or at depth
   at most 2f.
   */
  lemma {:induction false} ForkIsFoundNearby(tip: nat, f: nat)
    requires f <= tip && f <= 9 + 0x10_0000
    ensures var h := FirstShared(LocatorHeights(tip, 0, 1), tip - f);
            h <= tip - f && (h == 0 || tip - h <= 2 * f)
  {
    EntriesFrom(tip, 0);
    Pow2Twenty();
    var i := FirstDeepEnough(f, 30);
    EntryIsShared(tip, f, LocatorHeights(tip, 0, 1), i);
  }

  lemma {:induction false} EntryIsShared(tip: nat, f: nat, hs: seq<nat>, i: nat)
    requires Entries(tip, 0, hs) && f <= tip && i <= 30
    requires f <= DepthAt(i) <= 2 * f && (i > 0 ==> DepthAt(i - 1) < f)
    ensures var h := FirstShared(hs, tip - f);
            h <= tip - f && (h == 0 || tip - h <= 2 * f)
  {
    var k := if i < |hs| then i else |hs| - 1;
    forall j | 0 <= j < k ensures hs[j] > tip - f {
      assert EntryAt(tip, 0, hs, j);
      if j < i - 1 {
        DepthIsMonotone(j, i - 1);
      }
    }
    if k < |hs| - 1 {
      assert EntryAt(tip, 0, hs, k);
    }
    FirstSharedAt(hs, tip - f, k);
  }

  /** Any deeper fork is only found at genesis. */
  lemma {:induction false} DeeperForksGoToGenesis(tip: nat, f: nat)
    requires 9 + 0x10_0000 < f <= tip
    ensures FirstShared(LocatorHeights(tip, 0, 1), tip - f) == 0
  {
    EntriesFrom(tip, 0);
    Pow2Twenty();
    NoEntryIsShared(tip, f, LocatorHeights(tip, 0, 1));
  }

  lemma {:induction false} NoEntryIsShared(tip: nat, f: nat, hs: seq<nat>)
    requires Entries(tip, 0, hs) && DepthAt(30) < f <= tip
    ensures FirstShared(hs, tip - f) == 0
  {
    forall j | 0 <= j < |hs| - 1 ensures hs[j] > tip - f {
      assert EntryAt(tip, 0, hs, j);
      if j < 30 {
        DepthIsMonotone(j, 30);
      }
    }
    FirstSharedAt(hs, tip - f, |hs| - 1);
  }

  lemma {:induction false} Pow2Twenty()
    ensures DepthAt(30) == 9 + 0x10_0000
  {
    assert Pow2(5) == 32 && Pow2(10) == 32 * Pow2(5);
    assert Pow2(15) == 32 * Pow2(10) && Pow2(20) == 32 * Pow2(15);
  }
}
