/** Expected targets: constant between boundaries, adjusted by measured time every ten blocks. */
module Difficulty {
  import opened Types

  const TARGET_BLOCK_TIME := 600
  const DIFFICULTY_RETARGET_INTERVAL := 10
  const MAX_RETARGET_FACTOR := 4
  const EXPECTED_TIME := 6000
  const MAX_TARGET: nat := 0x0000FFFF00000000000000000000000000000000000000000000000000000000
  const MIN_TARGET: nat := 1
  const GENESIS_TARGET := MAX_TARGET

  function Clamp(low: nat, x: nat, high: nat): nat {
    var capped := if x < high then x else high;
    if capped < low then low else capped
  }

  /** New target from the last target and the measured time. */
  function Adjust(previous: nat, measured: int): nat {
    var actual := if measured <= 0 then 1 else measured;
    var bounded := Clamp(MIN_TARGET, previous * actual / EXPECTED_TIME, MAX_TARGET);
    Clamp(previous / MAX_RETARGET_FACTOR, bounded, previous * MAX_RETARGET_FACTOR)
  }

  /** The measured time runs from the first to the last block of the window: nine intervals. */
  function Retarget(chain: seq<Block>, height: nat): nat
    requires height <= |chain|
  {
    if height < DIFFICULTY_RETARGET_INTERVAL then GENESIS_TARGET
    else
      var first, last := chain[height - DIFFICULTY_RETARGET_INTERVAL].header, chain[height - 1].header;
      Adjust(last.target, last.timestamp - first.timestamp)
  }

  function ExpectedTargetAt(chain: seq<Block>, height: nat): nat
    requires chain != [] && height <= |chain|
  {
    if height == 0 then GENESIS_TARGET
    else if height < DIFFICULTY_RETARGET_INTERVAL then chain[0].header.target
    else if height % DIFFICULTY_RETARGET_INTERVAL != 0 then chain[height - 1].header.target
    else Retarget(chain, height)
  }

  /** Every block above genesis carries the target expected at its height. */
  ghost predicate OnTarget(chain: seq<Block>) {
    chain != [] && forall i :: 1 <= i < |chain| ==> OnTargetAt(chain, i)
  }

  predicate OnTargetAt(chain: seq<Block>, i: nat)
    requires i < |chain|
  {
    chain[i].header.target == ExpectedTargetAt(chain, i)
  }

  lemma {:induction false} ExpectedTargetOfPrefix(chain: seq<Block>, n: nat, height: nat)
    requires 1 <= n <= |chain| && height <= n
    ensures ExpectedTargetAt(chain[..n], height) == ExpectedTargetAt(chain, height)
  {
  }

  // ---------- one adjustment ----------

  lemma {:induction false} MulMonotone(d: nat, a: nat, b: nat)
    requires a <= b
    ensures d * a <= d * b
  {
  }

  lemma {:induction false} MulCancel(d: nat, a: nat, b: nat)
    requires d * a < d * b
    ensures a < b
  {
    if b <= a {
      MulMonotone(d, b, a);
    }
  }

  lemma {:induction false} QuotientIsExact(x: nat, d: nat, q: nat)
    requires d > 0
    ensures q == x / d <==> q * d <= x < (q + 1) * d
  {
    var p := x / d;
    assert x == d * p + x % d;
    if q < p {
      MulMonotone(d, q + 1, p);
    } else if p < q {
      MulMonotone(d, p + 1, q);
    }
  }

  lemma {:induction false} Distribute(a: nat, b: nat, c: nat)
    ensures a * (b + c) == a * b + a * c
  {
  }

  lemma {:induction false} QuotientIs(x: nat, d: nat, q: nat, r: nat)
    requires d > 0 && x == d * q + r && r < d
    ensures x / d == q
  {
    var p := x / d;
    assert x == d * p + x % d;
    Distribute(d, p, 1);
    Distribute(d, q, 1);
    MulCancel(d, p, q + 1);
    MulCancel(d, q, p + 1);
  }

  lemma {:induction false} DivMonotone(a: nat, b: nat, d: nat)
    requires a <= b && d > 0
    ensures a / d <= b / d
  {
    assert a == d * (a / d) + a % d && b == d * (b / d) + b % d;
    Distribute(d, b / d, 1);
    MulCancel(d, a / d, b / d + 1);
  }

  lemma {:induction false} DivExact(q: nat, d: nat)
    requires d > 0
    ensures q * d / d == q
  {
    QuotientIs(q * d, d, q, 0);
  }

  /** An adjusted target stays in range and moves by at most a factor of four. */
  lemma {:induction false} AdjustIsBounded(previous: nat, measured: int)
    requires MIN_TARGET <= previous <= MAX_TARGET
    ensures var t := Adjust(previous, measured);
            && MIN_TARGET <= t <= MAX_TARGET
            && previous / MAX_RETARGET_FACTOR <= t <= previous * MAX_RETARGET_FACTOR
  {
  }

  /** More measured time never makes the target harder. */
  lemma {:induction false} AdjustIsMonotone(previous: nat, measured: int, longer: int)
    requires measured <= longer
    ensures Adjust(previous, measured) <= Adjust(previous, longer)
  {
    var a, b := if measured <= 0 then 1 else measured, if longer <= 0 then 1 else longer;
    MulMonotone(previous, a, b);
    DivMonotone(previous * a, previous * b, EXPECTED_TIME);
  }

  /** Where neither clamp is reached the target is scaled by measured over expected time, rounded down. */
  lemma {:induction false} AdjustIsProportional(previous: nat, measured: int)
    requires MIN_TARGET <= previous
    requires EXPECTED_TIME <= MAX_RETARGET_FACTOR * measured && measured <= MAX_RETARGET_FACTOR * EXPECTED_TIME
    requires MIN_TARGET <= previous * measured / EXPECTED_TIME <= MAX_TARGET
    ensures Adjust(previous, measured) == previous * measured / EXPECTED_TIME
  {
    MulMonotone(previous, measured, 4 * EXPECTED_TIME);
    DivMonotone(previous * measured, previous * 4 * EXPECTED_TIME, EXPECTED_TIME);
    DivExact(previous * 4, EXPECTED_TIME);
    var quarter := previous / 4;
    assert 4 * quarter <= previous;
    assert quarter * EXPECTED_TIME <= previous * measured by {
      MulMonotone(EXPECTED_TIME, 4 * quarter, previous);
      MulMonotone(previous, EXPECTED_TIME, 4 * measured);
    }
    DivMonotone(quarter * EXPECTED_TIME, previous * measured, EXPECTED_TIME);
    DivExact(quarter, EXPECTED_TIME);
  }

  /** The target at a boundary depends on the last target and on two timestamps, ten blocks' first and last, alone. */
  lemma {:induction false} BoundaryReadsTwoTimes(a: seq<Block>, b: seq<Block>, h: nat)
    requires 0 < h <= |a| && h <= |b| && h % 10 == 0
    requires a[h - 1].header.target == b[h - 1].header.target
    requires a[h - 1].header.timestamp == b[h - 1].header.timestamp
    requires a[h - 10].header.timestamp == b[h - 10].header.timestamp
    ensures ExpectedTargetAt(a, h) == ExpectedTargetAt(b, h)
  {
  }

  /**
   Whatever the ten timestamps are: where neither clamp is reached, the target at a boundary is the last
   target times the time from the first to the last of the ten blocks, over 6000.
   */
  lemma {:induction false} BoundaryIsProportional(chain: seq<Block>, h: nat)
    requires 0 < h <= |chain| && h % 10 == 0
    ensures var last, measured := chain[h - 1].header.target,
            chain[h - 1].header.timestamp - chain[h - 10].header.timestamp;
            1 <= last && 1500 <= measured <= 24000 && 1 <= last * measured / 6000 <= MAX_TARGET
            ==> ExpectedTargetAt(chain, h) == last * measured / 6000
  {
    var last, measured := chain[h - 1].header.target, chain[h - 1].header.timestamp - chain[h - 10].header.timestamp;
    if 1 <= last && 1500 <= measured <= 24000 && 1 <= last * measured / 6000 <= MAX_TARGET {
      AdjustIsProportional(last, measured);
    }
  }

  /**
   Faster than a quarter of the expected time, a backward clock included, counts as a quarter; slower than
   four times as four times.
   */
  lemma {:induction false} BoundaryIsClamped(chain: seq<Block>, h: nat)
    requires 0 < h <= |chain| && h % 10 == 0 && 4 <= chain[h - 1].header.target <= MAX_TARGET
    ensures var last, measured := chain[h - 1].header.target,
            chain[h - 1].header.timestamp - chain[h - 10].header.timestamp;
            && (measured <= 1500 ==> ExpectedTargetAt(chain, h) == last / 4)
            && (measured >= 24000
                ==> ExpectedTargetAt(chain, h) == if 4 * last <= MAX_TARGET then 4 * last else MAX_TARGET)
  {
    var last, measured := chain[h - 1].header.target, chain[h - 1].header.timestamp - chain[h - 10].header.timestamp;
    AdjustIsBounded(last, measured);
    AdjustAtQuarter(last);
    AdjustAtFour(last);
    if measured <= 1500 {
      AdjustIsMonotone(last, measured, 1500);
    } else if measured >= 24000 {
      AdjustIsMonotone(last, 24000, measured);
    }
  }

  lemma {:induction false} AdjustAtQuarter(last: nat)
    requires 4 <= last <= MAX_TARGET
    ensures Adjust(last, 1500) == last / 4
  {
    assert last * 1500 / 6000 == last / 4;
    AdjustIsProportional(last, 1500);
  }

  lemma {:induction false} AdjustAtFour(last: nat)
    requires 4 <= last <= MAX_TARGET
    ensures Adjust(last, 24000) == if 4 * last <= MAX_TARGET then 4 * last else MAX_TARGET
  {
    assert last * 24000 / 6000 == 4 * last;
  }

  /**
   Ten blocks exactly 600 seconds apart measure 5400 seconds, so perfect timing still cuts the target to
   nine tenths.
   */
  lemma {:induction false} PerfectTimingTightens(chain: seq<Block>, height: nat)
    requires height <= |chain| && height % 10 == 0 && height > 0
    requires forall i: nat ::
               height - 10 < i < height
               ==> chain[i].header.timestamp == chain[i - 1].header.timestamp + TARGET_BLOCK_TIME
    requires 2 <= chain[height - 1].header.target <= MAX_TARGET
    ensures ExpectedTargetAt(chain, height) == chain[height - 1].header.target * 9 / 10
  {
    var t := chain[height - 1].header.target;
    assert chain[height - 9].header.timestamp == chain[height - 10].header.timestamp + 600;
    assert chain[height - 7].header.timestamp == chain[height - 8].header.timestamp + 600;
    assert chain[height - 5].header.timestamp == chain[height - 6].header.timestamp + 600;
    assert chain[height - 3].header.timestamp == chain[height - 4].header.timestamp + 600;
    assert chain[height - 1].header.timestamp == chain[height - 2].header.timestamp + 600;
    assert t * 5400 / 6000 == t * 9 / 10;
    AdjustIsProportional(t, 5400);
  }

  // ---------- along a chain ----------

  /** All targets of a chain stay in range. */
  lemma {:induction false} TargetsStayInRange(chain: seq<Block>, height: nat)
    requires OnTarget(chain) && height < |chain|
    requires MIN_TARGET <= chain[0].header.target <= MAX_TARGET
    ensures MIN_TARGET <= chain[height].header.target <= MAX_TARGET
  {
    if height > 0 {
      assert OnTargetAt(chain, height);
      TargetsStayInRange(chain, height - 1);
      if height >= 10 && height % 10 == 0 {
        var first, last := chain[height - 10].header, chain[height - 1].header;
        AdjustIsBounded(last.target, last.timestamp - first.timestamp);
      }
    }
  }

  /** Two blocks of the same ten-block window have the same target. */
  lemma {:induction false} TargetIsConstantInWindow(chain: seq<Block>, i: nat, j: nat)
    requires OnTarget(chain) && i <= j < |chain| && i / 10 == j / 10
    ensures chain[i].header.target == chain[j].header.target
    decreases j
  {
    if 0 < i {
      assert OnTargetAt(chain, i);
    }
    if i < j {
      assert OnTargetAt(chain, j);
    }
    if i < j && j >= 10 {
      assert j % 10 != 0;
      TargetIsConstantInWindow(chain, i, j - 1);
    }
  }

  /** At a boundary the target moves by at most a factor of four. */
  lemma {:induction false} BoundaryMovesByFour(chain: seq<Block>, height: nat)
    requires OnTarget(chain) && 10 <= height < |chain| && height % 10 == 0
    requires MIN_TARGET <= chain[0].header.target <= MAX_TARGET
    ensures var before, after := chain[height - 1].header.target, chain[height].header.target;
            before / 4 <= after <= 4 * before
  {
    TargetsStayInRange(chain, height - 1);
    assert OnTargetAt(chain, height);
    var first, last := chain[height - 10].header, chain[height - 1].header;
    AdjustIsBounded(last.target, last.timestamp - first.timestamp);
  }

  function Pow4(k: nat): (r: nat)
    ensures r > 0
  {
    if k == 0 then 1 else 4 * Pow4(k - 1)
  }

  /** After k boundaries the target is at least the genesis target over 4^k. */
  lemma {:induction false} TargetFloor(chain: seq<Block>, height: nat)
    requires OnTarget(chain) && height < |chain|
    ensures chain[height].header.target >= chain[0].header.target / Pow4(height / 10)
  {
    if height > 0 {
      assert OnTargetAt(chain, height);
    }
    if height < 10 {
      assert height / 10 == 0 && Pow4(0) == 1;
    } else {
      TargetFloor(chain, height - 1);
      if height % 10 != 0 {
        assert height / 10 == (height - 1) / 10;
      } else {
        var k := (height - 1) / 10;
        assert height / 10 == k + 1 && Pow4(k + 1) == 4 * Pow4(k);
        var first, last := chain[height - 10].header, chain[height - 1].header;
        FloorStep(chain[0].header.target, Pow4(k), last.target, last.timestamp - first.timestamp);
      }
    }
  }

  lemma {:induction false} FloorStep(genesis: nat, p: nat, previous: nat, measured: int)
    requires p > 0 && previous >= genesis / p
    ensures Adjust(previous, measured) >= genesis / (4 * p)
  {
    DivMonotone(genesis / p, previous, 4);
    QuarterOfQuotient(genesis, p);
  }

  lemma {:induction false} QuarterOfQuotient(x: nat, a: nat)
    requires a > 0
    ensures x / a / 4 == x / (4 * a)
  {
    var q := x / a;
    var r, s := q / 4, q % 4;
    Distribute(a, 4 * r, s);
    MulMonotone(a, s, 3);
    QuotientIs(x, 4 * a, r, a * s + x % a);
  }

  // ---------- ledger work ----------

  function WorkForTarget(target: nat): nat
    requires target > 0
  {
    MAX_TARGET / target
  }

  function ChainWork(chain: seq<Block>): nat
    requires forall i :: 0 <= i < |chain| ==> chain[i].header.target > 0
  {
    if chain == [] then 0 else ChainWork(chain[..|chain| - 1]) + WorkForTarget(chain[|chain| - 1].header.target)
  }

  /** One more block adds the number w with w * target at most MAX_TARGET, and (w + 1) * target above it. */
  lemma {:induction false} BlockAddsLedgerWork(chain: seq<Block>, b: Block, w: nat)
    requires b.header.target > 0 && forall i :: 0 <= i < |chain| ==> chain[i].header.target > 0
    ensures ChainWork(chain + [b]) == ChainWork(chain) + w
            <==> w * b.header.target <= MAX_TARGET < (w + 1) * b.header.target
  {
    assert (chain + [b])[..|chain|] == chain;
    QuotientIsExact(MAX_TARGET, b.header.target, w);
  }

  /** Every block adds at least one unit of work, so total work is at least the number of blocks. */
  lemma {:induction false} WorkGrowsWithEveryBlock(chain: seq<Block>, n: nat)
    requires OnTarget(chain) && n <= |chain|
    requires MIN_TARGET <= chain[0].header.target <= MAX_TARGET
    requires forall i :: 0 <= i < |chain| ==> chain[i].header.target > 0
    ensures ChainWork(chain) >= ChainWork(chain[..n]) + (|chain| - n)
    decreases |chain|
  {
    if n == |chain| {
      assert chain[..n] == chain;
    } else {
      var last := |chain| - 1;
      TargetsStayInRange(chain, last);
      DivMonotone(chain[last].header.target, MAX_TARGET, chain[last].header.target);
      DivExact(1, chain[last].header.target);
      if last == 0 {
        assert chain[..n] == [] && chain[..last] == [];
      } else {
        OnTargetPrefix(chain, last);
        WorkGrowsWithEveryBlock(chain[..last], n);
        assert chain[..last][..n] == chain[..n];
      }
    }
  }

  lemma {:induction false} OnTargetPrefix(chain: seq<Block>, n: nat)
    requires OnTarget(chain) && 1 <= n <= |chain|
    ensures OnTarget(chain[..n])
  {
    forall i | 1 <= i < n ensures OnTargetAt(chain[..n], i) {
      assert OnTargetAt(chain, i);
      ExpectedTargetOfPrefix(chain, n, i);
    }
  }
}
