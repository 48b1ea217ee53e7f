/** Median-past time: the middle timestamp of the last eleven blocks, and why it never goes back. */
module MedianTime {
  import opened Sorting

  const MEDIAN_COUNT := 11

  function NotAfter(): (int, int) -> bool {
    (a: int, b: int) => a <= b
  }

  /** The timestamps looked at when the median is taken before position `end`. */
  function Window(timestamps: seq<int>, end: nat): seq<int> {
    var last := if end < |timestamps| then end else |timestamps|;
    timestamps[if last < MEDIAN_COUNT then 0 else last - MEDIAN_COUNT..last]
  }

  function MedianPastTime(timestamps: seq<int>, end: nat): int {
    var w := Window(timestamps, end);
    if w == [] then 0 else Middle(w)
  }

  function Middle(w: seq<int>): int
    requires w != []
  {
    Sort(w, NotAfter())[(|w| - 1) / 2]
  }

  /** Every block but the first is later than the median before it. */
  ghost predicate LaterThanMedian(timestamps: seq<int>) {
    forall i :: 1 <= i < |timestamps| ==> LaterAt(timestamps, i)
  }

  predicate LaterAt(timestamps: seq<int>, i: nat)
    requires i < |timestamps|
  {
    MedianPastTime(timestamps, i) < timestamps[i]
  }

  // ---------- order statistics by counting ----------

  function Before(v: int): int -> bool {
    (x: int) => x < v
  }

  function CountBefore(s: seq<int>, v: int): nat {
    |Filter(s, Before(v))|
  }

  lemma {:induction false} CountInSorted(s: seq<int>, k: nat, v: int)
    requires SortedBy(s, NotAfter()) && k < |s|
    ensures v <= s[k] <==> CountBefore(s, v) <= k
    decreases |s|
  {
    var leq := NotAfter();
    assert forall i, j :: 0 <= i < j < |s| ==> leq(s[i], s[j]);
    if v <= s[0] {
      forall x | x in s ensures !Before(v)(x) {
        var i :| 0 <= i < |s| && s[i] == x;
        assert i > 0 ==> leq(s[0], s[i]);
      }
      FilterNone(s, Before(v));
      assert k > 0 ==> leq(s[0], s[k]);
    } else if k > 0 {
      var t := s[1..];
      forall i, j | 0 <= i < j < |t| ensures leq(t[i], t[j]) {
        assert leq(s[i + 1], s[j + 1]);
      }
      CountInSorted(t, k - 1, v);
    }
  }

  /** The k-th smallest is at least v exactly when at most k entries lie below v. */
  lemma {:induction false} OrderStatistic(s: seq<int>, k: nat, v: int)
    requires k < |s|
    ensures v <= Sort(s, NotAfter())[k] <==> CountBefore(s, v) <= k
  {
    SortSorts(s, NotAfter());
    SortPermutes(s, NotAfter());
    FilterCount(s, Sort(s, NotAfter()), Before(v));
    CountInSorted(Sort(s, NotAfter()), k, v);
  }

  predicate Splits(m: int, w: seq<int>) {
    && m in w
    && 2 * CountBefore(w, m) < |w|
    && 2 * (|w| - CountBefore(w, m + 1)) <= |w|
  }

  /** The median is a timestamp of the window; fewer than half lie below it, at most half above it. */
  lemma {:induction false} MedianSplitsWindow(timestamps: seq<int>, end: nat)
    requires Window(timestamps, end) != []
    ensures Splits(MedianPastTime(timestamps, end), Window(timestamps, end))
  {
    MiddleSplits(Window(timestamps, end));
  }

  lemma {:induction false} MiddleSplits(w: seq<int>)
    requires w != []
    ensures Splits(Middle(w), w)
  {
    var k := (|w| - 1) / 2;
    var m := Middle(w);
    assert 2 * k < |w| <= 2 * k + 2;
    OrderStatistic(w, k, m);
    OrderStatistic(w, k, m + 1);
    SortedMember(w, k);
  }

  lemma {:induction false} SortedMember(s: seq<int>, k: nat)
    requires k < |s|
    ensures Sort(s, NotAfter())[k] in s
  {
    SortPermutes(s, NotAfter());
    assert Sort(s, NotAfter())[k] in multiset(Sort(s, NotAfter()));
  }

  function Within(lo: int, hi: int): int -> bool {
    (x: int) => lo <= x <= hi
  }

  lemma {:induction false} WithinIsBetween(s: seq<int>, lo: int, hi: int, m: int)
    ensures m < lo ==> |Filter(s, Within(lo, hi))| <= |s| - CountBefore(s, m + 1)
    ensures hi < m ==> |Filter(s, Within(lo, hi))| <= CountBefore(s, m)
    decreases |s|
  {
    if s != [] {
      WithinIsBetween(s[1..], lo, hi, m);
    }
  }

  /**
   The last eleven timestamps before `end`, or all of them while there are fewer, decide by majority:
   where more than half of them lie in a range, the median lies there, whatever the others say.
   */
  lemma {:induction false} MajorityBracketsMedian(timestamps: seq<int>, end: nat, lo: int, hi: int)
    requires 0 < end <= |timestamps|
    requires var recent := timestamps[if end < 11 then 0 else end - 11..end];
             2 * |Filter(recent, Within(lo, hi))| > |recent|
    ensures lo <= MedianPastTime(timestamps, end) <= hi
  {
    MedianSplitsWindow(timestamps, end);
    WithinIsBetween(Window(timestamps, end), lo, hi, MedianPastTime(timestamps, end));
  }

  // ---------- the window moving on ----------

  lemma {:induction false} CountOfConcat(a: seq<int>, b: seq<int>, v: int)
    ensures CountBefore(a + b, v) == CountBefore(a, v) + CountBefore(b, v)
  {
    FilterConcat(a, b, Before(v));
  }

  /** One more block, later than the median, never lowers the median, whether the window still grows or is full. */
  lemma {:induction false} MedianStep(timestamps: seq<int>, end: nat)
    requires 1 <= end < |timestamps| && MedianPastTime(timestamps, end) < timestamps[end]
    ensures MedianPastTime(timestamps, end) <= MedianPastTime(timestamps, end + 1)
  {
    var m, t := MedianPastTime(timestamps, end), timestamps[end];
    var w, next := Window(timestamps, end), Window(timestamps, end + 1);
    var k := (|w| - 1) / 2;
    OrderStatistic(w, k, m);
    assert CountBefore([t], m) == 0;
    if end < MEDIAN_COUNT {
      assert next == w + [t];
      CountOfConcat(w, [t], m);
    } else {
      assert next == w[1..] + [t] && w == [w[0]] + w[1..];
      CountOfConcat(w[1..], [t], m);
      CountOfConcat([w[0]], w[1..], m);
    }
    OrderStatistic(next, (|next| - 1) / 2, m);
  }

  function Medians(timestamps: seq<int>): nat -> int {
    (end: nat) => MedianPastTime(timestamps, end)
  }

  lemma {:induction false} StepsAddUp(f: nat -> int, i: nat, j: nat)
    requires i <= j && forall k :: i <= k < j ==> f(k) <= f(k + 1)
    ensures f(i) <= f(j)
    decreases j
  {
    if i < j {
      StepsAddUp(f, i, j - 1);
      assert f(j - 1) <= f(j - 1 + 1);
    }
  }

  /** On a chain whose blocks are each later than their median, the median never decreases. */
  lemma {:induction false} MedianNeverDecreases(timestamps: seq<int>, i: nat, j: nat)
    requires LaterThanMedian(timestamps) && 1 <= i <= j <= |timestamps|
    ensures MedianPastTime(timestamps, i) <= MedianPastTime(timestamps, j)
  {
    var f := Medians(timestamps);
    forall k | i <= k < j ensures f(k) <= f(k + 1) {
      assert LaterAt(timestamps, k);
      MedianStep(timestamps, k);
    }
    StepsAddUp(f, i, j);
  }

  /** So each block is later than the median before every earlier block too. */
  lemma {:induction false} LaterThanEveryEarlierMedian(timestamps: seq<int>, i: nat, j: nat)
    requires LaterThanMedian(timestamps) && 1 <= i <= j < |timestamps|
    ensures MedianPastTime(timestamps, i) < timestamps[j]
  {
    MedianNeverDecreases(timestamps, i, j);
    assert LaterAt(timestamps, j);
  }

  lemma {:induction false} MedianOfPrefix(timestamps: seq<int>, n: nat, end: nat)
    requires end <= n <= |timestamps|
    ensures MedianPastTime(timestamps[..n], end) == MedianPastTime(timestamps, end)
  {
    assert Window(timestamps[..n], end) == Window(timestamps, end);
  }

  // ---------- choosing a timestamp ----------

  function NextBlockTimestamp(timestamps: seq<int>, now: int): int
    requires timestamps != []
  {
    var last, median := timestamps[|timestamps| - 1] + 1, MedianPastTime(timestamps, |timestamps|) + 1;
    var latest := if last < median then median else last;
    if latest < now then now else latest
  }

  /** The chosen timestamp is admissible, also after blocks that run ahead of or behind the clock. */
  lemma {:induction false} NextTimestampIsAdmissible(timestamps: seq<int>, now: int)
    requires timestamps != [] && LaterThanMedian(timestamps)
    ensures LaterThanMedian(timestamps + [NextBlockTimestamp(timestamps, now)])
  {
    var longer := timestamps + [NextBlockTimestamp(timestamps, now)];
    forall i | 1 <= i < |longer| ensures LaterAt(longer, i) {
      assert i < |timestamps| ==> LaterAt(timestamps, i);
      MedianOfPrefix(longer, |timestamps|, i);
      assert longer[..|timestamps|] == timestamps;
    }
  }

  /** It is the earliest time that is not before the clock, later than the last block and later than the median. */
  lemma {:induction false} NextTimestampIsEarliest(timestamps: seq<int>, now: int, t: int)
    requires timestamps != []
    ensures NextBlockTimestamp(timestamps, now) <= t
            <==> && now <= t && timestamps[|timestamps| - 1] < t
                 && MedianPastTime(timestamps, |timestamps|) < t
  {
  }
}
