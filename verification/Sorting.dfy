/** Python's `sorted` (stable) and list filtering, with the facts the rest of the model uses. */
module Sorting {
  import opened Bytes

  ghost predicate TotalPreorder<T(!new)>(leq: (T, T) -> bool) {
    && (forall a, b :: leq(a, b) || leq(b, a))
    && (forall a, b, c :: leq(a, b) && leq(b, c) ==> leq(a, c))
  }

  ghost predicate SortedBy<T>(s: seq<T>, leq: (T, T) -> bool) {
    forall i, j :: 0 <= i < j < |s| ==> leq(s[i], s[j])
  }

  function Insert<T>(x: T, s: seq<T>, leq: (T, T) -> bool): (r: seq<T>)
    ensures |r| == |s| + 1
  {
    if s == [] || leq(x, s[0]) then [x] + s else [s[0]] + Insert(x, s[1..], leq)
  }

  function Sort<T>(s: seq<T>, leq: (T, T) -> bool): (r: seq<T>)
    ensures |r| == |s|
  {
    if s == [] then [] else Insert(s[0], Sort(s[1..], leq), leq)
  }

  function Filter<T(!new)>(s: seq<T>, p: T -> bool): (r: seq<T>)
    ensures |r| <= |s|
    ensures forall x :: x in r <==> x in s && p(x)
  {
    if s == [] then []
    else if p(s[0]) then [s[0]] + Filter(s[1..], p)
    else Filter(s[1..], p)
  }

  lemma {:induction false} FilterConcat<T(!new)>(a: seq<T>, b: seq<T>, p: T -> bool)
    ensures Filter(a + b, p) == Filter(a, p) + Filter(b, p)
  {
    if a == [] {
      assert a + b == b;
    } else {
      assert (a + b)[1..] == a[1..] + b;
      FilterConcat(a[1..], b, p);
    }
  }

  lemma {:induction false} FilterFilter<T(!new)>(s: seq<T>, p: T -> bool, q: T -> bool)
    ensures (forall x :: q(x) ==> p(x)) ==> Filter(Filter(s, p), q) == Filter(s, q)
    ensures (forall x :: q(x) ==> !p(x)) ==> Filter(Filter(s, p), q) == []
  {
    if s != [] {
      FilterFilter(s[1..], p, q);
    }
  }

  lemma {:induction false} FilterTwiceShrinks<T(!new)>(s: seq<T>, p: T -> bool, q: T -> bool)
    ensures |Filter(Filter(s, p), q)| <= |Filter(s, q)|
  {
    if s != [] {
      FilterTwiceShrinks(s[1..], p, q);
    }
  }

  lemma {:induction false} FilterKeepsAll<T(!new)>(s: seq<T>, p: T -> bool)
    requires forall x :: x in s ==> p(x)
    ensures Filter(s, p) == s
  {
    if s != [] {
      FilterKeepsAll(s[1..], p);
    }
  }

  lemma {:induction false} FilterNone<T(!new)>(s: seq<T>, p: T -> bool)
    requires forall x :: x in s ==> !p(x)
    ensures Filter(s, p) == []
  {
    if s != [] {
      FilterNone(s[1..], p);
    }
  }

  /** Filtering on a class of equal elements sees the same list before and after sorting: stability. */
  lemma {:induction false} SortIsStable<T(!new)>(s: seq<T>, leq: (T, T) -> bool, p: T -> bool)
    requires forall a, b :: p(a) && p(b) ==> leq(a, b)
    ensures Filter(Sort(s, leq), p) == Filter(s, p)
  {
    if s != [] {
      SortIsStable(s[1..], leq, p);
      InsertFilter(s[0], Sort(s[1..], leq), leq, p);
    }
  }

  lemma {:induction false} InsertFilter<T(!new)>(x: T, s: seq<T>, leq: (T, T) -> bool, p: T -> bool)
    requires forall a, b :: p(a) && p(b) ==> leq(a, b)
    ensures Filter(Insert(x, s, leq), p) == if p(x) then [x] + Filter(s, p) else Filter(s, p)
  {
    if s == [] || leq(x, s[0]) {
      assert ([x] + s)[1..] == s;
    } else {
      InsertFilter(x, s[1..], leq, p);
      assert ([s[0]] + Insert(x, s[1..], leq))[1..] == Insert(x, s[1..], leq);
    }
  }

  /** Sorting only permutes. */
  lemma {:induction false} SortPermutes<T>(s: seq<T>, leq: (T, T) -> bool)
    ensures multiset(Sort(s, leq)) == multiset(s)
  {
    if s != [] {
      SortPermutes(s[1..], leq);
      InsertPermutes(s[0], Sort(s[1..], leq), leq);
      assert s == [s[0]] + s[1..];
    }
  }

  lemma {:induction false} InsertPermutes<T>(x: T, s: seq<T>, leq: (T, T) -> bool)
    ensures multiset(Insert(x, s, leq)) == multiset{x} + multiset(s)
  {
    if !(s == [] || leq(x, s[0])) {
      InsertPermutes(x, s[1..], leq);
      assert s == [s[0]] + s[1..];
    }
  }

  lemma {:induction false} FilterCount<T(!new)>(a: seq<T>, b: seq<T>, p: T -> bool)
    requires multiset(a) == multiset(b)
    ensures multiset(Filter(a, p)) == multiset(Filter(b, p))
    ensures |Filter(a, p)| == |Filter(b, p)|
  {
    assert |Filter(a, p)| == |multiset(Filter(a, p))| && |Filter(b, p)| == |multiset(Filter(b, p))|;
    forall x ensures multiset(Filter(a, p))[x] == multiset(Filter(b, p))[x] {
      FilterMultiplicity(a, p, x);
      FilterMultiplicity(b, p, x);
    }
  }

  predicate AtMostOne<T(!new)>(s: seq<T>, p: T -> bool) {
    |Filter(s, p)| <= 1
  }

  /** AtMostOne read by positions. */
  lemma {:induction false} AtMostOneByPosition<T(!new)>(s: seq<T>, p: T -> bool)
    ensures AtMostOne(s, p) <==> forall i, j :: 0 <= i < j < |s| ==> !(p(s[i]) && p(s[j]))
  {
    if s != [] {
      var t := s[1..];
      AtMostOneByPosition(t, p);
      if AtMostOne(s, p) {
        forall i, j | 0 <= i < j < |s| ensures !(p(s[i]) && p(s[j])) {
          if i == 0 {
            assert t[j - 1] in t;
          } else {
            assert t[i - 1] == s[i] && t[j - 1] == s[j];
          }
        }
      } else if p(s[0]) {
        assert Filter(t, p)[0] in t;
        var k :| 0 <= k < |t| && t[k] == Filter(t, p)[0];
        assert p(s[0]) && p(s[k + 1]);
      } else {
        var i, j :| 0 <= i < j < |t| && p(t[i]) && p(t[j]);
        assert p(s[i + 1]) && p(s[j + 1]);
      }
    }
  }

  lemma {:induction false} FilterMultiplicity<T(!new)>(a: seq<T>, p: T -> bool, x: T)
    ensures multiset(Filter(a, p))[x] == if p(x) then multiset(a)[x] else 0
  {
    if a != [] {
      FilterMultiplicity(a[1..], p, x);
      assert a == [a[0]] + a[1..];
    }
  }

  lemma {:induction false} SortSorts<T(!new)>(s: seq<T>, leq: (T, T) -> bool)
    requires TotalPreorder(leq)
    ensures SortedBy(Sort(s, leq), leq)
  {
    if s != [] {
      SortSorts(s[1..], leq);
      InsertSorts(s[0], Sort(s[1..], leq), leq);
    }
  }

  lemma {:induction false} InsertSorts<T(!new)>(x: T, s: seq<T>, leq: (T, T) -> bool)
    requires TotalPreorder(leq) && SortedBy(s, leq)
    ensures SortedBy(Insert(x, s, leq), leq)
  {
    if !(s == [] || leq(x, s[0])) {
      InsertSorts(x, s[1..], leq);
      InsertPermutes(x, s[1..], leq);
      forall y | y in Insert(x, s[1..], leq) ensures leq(s[0], y) {
        assert y in multiset(Insert(x, s[1..], leq));
        assert y == x || y in s[1..];
      }
    }
  }

  lemma {:induction false} SortedIsFixed<T>(s: seq<T>, leq: (T, T) -> bool)
    requires SortedBy(s, leq)
    ensures Sort(s, leq) == s
  {
    if s != [] {
      SortedIsFixed(s[1..], leq);
      assert s == [s[0]] + s[1..];
    }
  }

  ghost predicate Antisymmetric<T(!new)>(a: seq<T>, leq: (T, T) -> bool) {
    forall x, y :: x in a && y in a && leq(x, y) && leq(y, x) ==> x == y
  }

  lemma {:induction false} TailAntisymmetric<T(!new)>(a: seq<T>, leq: (T, T) -> bool)
    requires a != [] && Antisymmetric(a, leq)
    ensures Antisymmetric(a[1..], leq)
  {
    forall x, y | x in a[1..] && y in a[1..] && leq(x, y) && leq(y, x) ensures x == y {
      assert x in a && y in a;
    }
  }

  /** Two sorted arrangements of the same elements agree when only equal elements compare equal. */
  lemma {:induction false} SortedArrangementsAgree<T(!new)>(a: seq<T>, b: seq<T>, leq: (T, T) -> bool)
    requires multiset(a) == multiset(b) && SortedBy(a, leq) && SortedBy(b, leq) && Antisymmetric(a, leq)
    ensures a == b
    decreases |a|
  {
    SameElementsSameLength(a, b);
    if a != [] {
      HeadsAgree(a, b, leq);
      TailsMatch(a, b);
      TailIsSorted(a, leq);
      TailIsSorted(b, leq);
      TailAntisymmetric(a, leq);
      SortedArrangementsAgree(a[1..], b[1..], leq);
      assert a == [a[0]] + a[1..] == b;
    }
  }

  lemma {:induction false} SameElementsSameLength<T>(a: seq<T>, b: seq<T>)
    requires multiset(a) == multiset(b)
    ensures |a| == |b|
  {
    assert |a| == |multiset(a)| && |b| == |multiset(b)|;
  }

  lemma {:induction false} TailsMatch<T>(a: seq<T>, b: seq<T>)
    requires multiset(a) == multiset(b) && a != [] && b != [] && a[0] == b[0]
    ensures multiset(a[1..]) == multiset(b[1..])
  {
    assert a == [a[0]] + a[1..] && b == [b[0]] + b[1..];
    assert multiset(a) == multiset{a[0]} + multiset(a[1..]) && multiset(b) == multiset{b[0]} + multiset(b[1..]);
    assert multiset(a[1..]) == multiset(a) - multiset{a[0]} == multiset(b[1..]);
  }

  lemma {:induction false} TailIsSorted<T>(a: seq<T>, leq: (T, T) -> bool)
    requires a != [] && SortedBy(a, leq)
    ensures SortedBy(a[1..], leq)
  {
    forall i, j | 0 <= i < j < |a[1..]| ensures leq(a[1..][i], a[1..][j]) {
      assert leq(a[i + 1], a[j + 1]);
    }
  }

  lemma {:induction false} HeadsAgree<T(!new)>(a: seq<T>, b: seq<T>, leq: (T, T) -> bool)
    requires multiset(a) == multiset(b) && SortedBy(a, leq) && SortedBy(b, leq) && a != [] && b != []
             && Antisymmetric(a, leq)
    ensures a[0] == b[0]
  {
    assert a[0] in multiset(b) && b[0] in multiset(a);
    var i :| 0 <= i < |b| && b[i] == a[0];
    var j :| 0 <= j < |a| && a[j] == b[0];
    if i != 0 && j != 0 {
      assert leq(a[0], a[j]) && leq(b[0], b[i]);
    }
  }

  // ---------- lexicographic order on byte strings ----------

  predicate LexLeq(a: bytes, b: bytes) {
    if a == [] then true
    else if b == [] then false
    else if a[0] != b[0] then a[0] < b[0]
    else LexLeq(a[1..], b[1..])
  }

  lemma {:induction false} LexTotal(a: bytes, b: bytes)
    ensures LexLeq(a, b) || LexLeq(b, a)
    ensures LexLeq(a, b) && LexLeq(b, a) ==> a == b
    ensures LexLeq(a, a)
    decreases |a|
  {
    if a != [] {
      LexTotal(a[1..], a[1..]);
      if b != [] {
        LexTotal(a[1..], b[1..]);
        assert a == [a[0]] + a[1..] && b == [b[0]] + b[1..];
      }
    }
  }

  lemma {:induction false} LexTransitive(a: bytes, b: bytes, c: bytes)
    requires LexLeq(a, b) && LexLeq(b, c)
    ensures LexLeq(a, c)
  {
    if a != [] && b[0] == a[0] == c[0] {
      LexTransitive(a[1..], b[1..], c[1..]);
    }
  }

  predicate AgreeUpTo(a: bytes, b: bytes, k: nat) {
    k <= |a| && k <= |b| && a[..k] == b[..k]
  }

  /** The order of byte strings: at the first difference the smaller byte comes first, and a prefix before the whole. */
  lemma {:induction false} LexIsDictionaryOrder(a: bytes, b: bytes, k: nat)
    requires AgreeUpTo(a, b, k) && (k < |a| && k < |b| ==> a[k] != b[k])
    ensures LexLeq(a, b) <==> k == |a| || (k < |b| && a[k] < b[k])
    decreases k
  {
    if k > 0 {
      assert a[0] == a[..k][0] == b[..k][0] == b[0];
      assert a[1..][..k - 1] == a[..k][1..] && b[1..][..k - 1] == b[..k][1..];
      LexIsDictionaryOrder(a[1..], b[1..], k - 1);
    }
  }
}
