/** Order statistics of a numeric column as pandas computes them:
    `Series.quantile` (linear interpolation between the two closest ranks of
    the sorted column) and `Series.median`. Missing values are already
    excluded from the input sequence. */
module Stats {
  import opened Wrappers
  import opened Sequences

  predicate Sorted(s: seq<real>) {
    forall i, j :: 0 <= i < j < |s| ==> s[i] <= s[j]
  }

  lemma SortedTail(s: seq<real>)
    requires Sorted(s) && s != []
    ensures Sorted(s[1..])
  {
    var t := s[1..];
    forall i, j | 0 <= i < j < |t|
      ensures t[i] <= t[j]
    {
      assert t[i] == s[i + 1] && t[j] == s[j + 1];
    }
  }

  lemma SortedCons(h: real, s: seq<real>)
    requires Sorted(s)
    requires s != [] ==> h <= s[0]
    ensures Sorted([h] + s)
  {
    var r := [h] + s;
    forall i, j | 0 <= i < j < |r|
      ensures r[i] <= r[j]
    {
      if i == 0 {
        assert r[j] == s[j - 1];
        assert s[0] <= s[j - 1];
      } else {
        assert r[i] == s[i - 1] && r[j] == s[j - 1];
      }
    }
  }

  /** Inserts `x` into the sorted sequence `s`. */
  function Insert(x: real, s: seq<real>): (r: seq<real>)
    requires Sorted(s)
    ensures Sorted(r)
    ensures multiset(r) == multiset(s) + multiset{x}
    ensures s != [] ==> r[0] == (if x <= s[0] then x else s[0])
    ensures s == [] ==> r == [x]
  {
    if s == [] || x <= s[0] then
      SortedCons(x, s);
      [x] + s
    else
      var t := s[1..];
      assert s == [s[0]] + t;
      SortedTail(s);
      var r := Insert(x, t);
      SortedCons(s[0], r);
      [s[0]] + r
  }

  /** The column in ascending order. */
  function SortAscending(s: seq<real>): (r: seq<real>)
    ensures Sorted(r)
    ensures multiset(r) == multiset(s)
    ensures |r| == |s|
  {
    if s == [] then []
    else
      assert s == [s[0]] + s[1..];
      Insert(s[0], SortAscending(s[1..]))
  }

  /** Some element of `xs` is at or below `v` and some is at or above it. */
  ghost predicate InRange(xs: seq<real>, v: real) {
    && (exists i :: 0 <= i < |xs| && xs[i] <= v)
    && (exists j :: 0 <= j < |xs| && v <= xs[j])
  }

  lemma MultisetIndex(a: seq<real>, b: seq<real>, i: int) returns (j: int)
    requires multiset(a) == multiset(b) && 0 <= i < |a|
    ensures 0 <= j < |b| && b[j] == a[i]
  {
    assert a[i] in multiset(b);
    j :| 0 <= j < |b| && b[j] == a[i];
  }

  /** A value between the first and last element of a rearrangement of `xs`
      has an element of `xs` at or below it and one at or above it: it lies
      between the minimum and the maximum of `xs`. */
  lemma WithinRange(t: seq<real>, xs: seq<real>, v: real)
    requires multiset(t) == multiset(xs) && t != []
    requires t[0] <= v <= t[|t| - 1]
    ensures InRange(xs, v)
  {
    var a := MultisetIndex(t, xs, 0);
    var b := MultisetIndex(t, xs, |t| - 1);
  }

  lemma ScaleBounds(a: real, q: real)
    requires 0.0 <= a && 0.0 <= q <= 1.0
    ensures 0.0 <= a * q <= a
  {
  }

  lemma ScaleMonotone(a: real, q1: real, q2: real)
    requires 0.0 <= a && q1 <= q2
    ensures a * q1 <= a * q2
  {
  }

  /** The point a fraction `t` of the way from `a` to `b`. */
  function Lerp(a: real, b: real, t: real): (v: real)
    requires a <= b && 0.0 <= t <= 1.0
    ensures a <= v <= b
  {
    var d := b - a;
    ScaleBounds(d, t);
    var p := d * t;
    assert 0.0 <= p <= d;
    a + p
  }

  lemma LerpMonotone(a: real, b: real, t1: real, t2: real)
    requires a <= b && 0.0 <= t1 <= t2 <= 1.0
    ensures Lerp(a, b, t1) <= Lerp(a, b, t2)
  {
    var d := b - a;
    ScaleMonotone(d, t1, t2);
    var p1, p2 := d * t1, d * t2;
    assert p1 <= p2;
    var v1, v2 := Lerp(a, b, t1), Lerp(a, b, t2);
    assert v1 == a + p1;
    assert v2 == a + p2;
  }

  /** The fractional rank `(n - 1) * q` at which the quantile is read. */
  function Rank(n: nat, q: real): (pos: real)
    requires n > 0 && 0.0 <= q <= 1.0
    ensures 0.0 <= pos <= (n - 1) as real
    ensures pos == (n - 1) as real * q
  {
    ScaleBounds((n - 1) as real, q);
    (n - 1) as real * q
  }

  lemma RankMonotone(n: nat, q1: real, q2: real)
    requires n > 0 && 0.0 <= q1 <= q2 <= 1.0
    ensures Rank(n, q1) <= Rank(n, q2)
  {
    ScaleMonotone((n - 1) as real, q1, q2);
  }

  /** Linear interpolation between the values at the floor and the ceiling of
      the rank. */
  function QuantileOfSorted(s: seq<real>, q: real): (v: real)
    requires Sorted(s) && s != [] && 0.0 <= q <= 1.0
    ensures s[0] <= v <= s[|s| - 1]
    ensures s[Rank(|s|, q).Floor] <= v
    ensures Rank(|s|, q).Floor + 1 < |s| ==> v <= s[Rank(|s|, q).Floor + 1]
    ensures Rank(|s|, q).Floor + 1 == |s| ==> v == s[|s| - 1]
    ensures Rank(|s|, q) == Rank(|s|, q).Floor as real ==> v == s[Rank(|s|, q).Floor]
  {
    var pos := Rank(|s|, q);
    var lo := pos.Floor;
    assert lo as real <= pos < lo as real + 1.0;
    assert s[0] <= s[lo] && s[lo] <= s[|s| - 1];
    if lo + 1 < |s| then
      assert s[lo + 1] <= s[|s| - 1];
      LerpEnds(s[lo], s[lo + 1]);
      Lerp(s[lo], s[lo + 1], pos - lo as real)
    else s[lo]
  }

  /** `Series.quantile(q)`; `None` for an empty column (pandas returns NaN). */
  function Quantile(xs: seq<real>, q: real): (v: Option<real>)
    requires 0.0 <= q <= 1.0
    ensures v.Some? <==> xs != []
    ensures v.Some? ==> InRange(xs, v.value)
  {
    if xs == [] then None
    else
      var s := SortAscending(xs);
      var v := QuantileOfSorted(s, q);
      WithinRange(s, xs, v);
      Some(v)
  }

  /** A higher quantile level never yields a smaller value, so Q1 <= Q3. */
  lemma QuantileMonotone(xs: seq<real>, q1: real, q2: real)
    requires xs != []
    requires 0.0 <= q1 <= q2 <= 1.0
    ensures Quantile(xs, q1).value <= Quantile(xs, q2).value
  {
    var s := SortAscending(xs);
    QuantileOfSortedMonotone(s, q1, q2);
  }

  lemma QuantileOfSortedMonotone(s: seq<real>, q1: real, q2: real)
    requires Sorted(s) && s != []
    requires 0.0 <= q1 <= q2 <= 1.0
    ensures QuantileOfSorted(s, q1) <= QuantileOfSorted(s, q2)
  {
    var n := |s|;
    var p1, p2 := Rank(n, q1), Rank(n, q2);
    RankMonotone(n, q1, q2);
    var lo1, lo2 := p1.Floor, p2.Floor;
    assert lo1 as real <= p1 < lo1 as real + 1.0;
    assert lo2 as real <= p2 < lo2 as real + 1.0;
    assert lo1 <= lo2;
    if lo1 == lo2 {
      if lo1 + 1 < n {
        LerpMonotone(s[lo1], s[lo1 + 1], p1 - lo1 as real, p2 - lo2 as real);
      }
    } else {
      assert QuantileOfSorted(s, q1) <= s[lo1 + 1];
      assert s[lo1 + 1] <= s[lo2];
    }
  }

  /** The 0 quantile is the smallest value and the 1 quantile the largest. */
  lemma QuantileExtremes(xs: seq<real>)
    requires xs != []
    ensures forall i :: 0 <= i < |xs| ==> Quantile(xs, 0.0).value <= xs[i] <= Quantile(xs, 1.0).value
  {
    var s := SortAscending(xs);
    var n := |s|;
    assert Rank(n, 0.0).Floor == 0;
    assert Rank(n, 1.0).Floor == n - 1;
    var lo, hi := QuantileOfSorted(s, 0.0), QuantileOfSorted(s, 1.0);
    if n > 1 {
      LerpEnds(s[0], s[1]);
      assert lo == Lerp(s[0], s[1], 0.0);
    }
    assert lo == s[0] && hi == s[n - 1];
    forall i | 0 <= i < |xs|
      ensures lo <= xs[i] <= hi
    {
      var j := MultisetIndex(xs, s, i);
      assert s[0] <= s[j] <= s[n - 1];
    }
  }

  /** The middle value of a sorted column, or the mean of the two middle
      values when the count is even. */
  function MedianOfSorted(s: seq<real>): (m: real)
    requires Sorted(s) && s != []
    ensures s[0] <= m <= s[|s| - 1]
  {
    var n := |s|;
    if n % 2 == 1 then s[n / 2] else (s[n / 2 - 1] + s[n / 2]) / 2.0
  }

  /** `Series.median()`; `None` for an empty column (pandas returns NaN). */
  function Median(xs: seq<real>): (m: Option<real>)
    ensures m.Some? <==> xs != []
    ensures m.Some? ==> InRange(xs, m.value)
  {
    if xs == [] then None
    else
      var s := SortAscending(xs);
      var m := MedianOfSorted(s);
      WithinRange(s, xs, m);
      Some(m)
  }

  lemma LerpEnds(a: real, b: real)
    requires a <= b
    ensures Lerp(a, b, 0.0) == a
    ensures Lerp(a, b, 0.5) == (a + b) / 2.0
  {
    var d := b - a;
    assert d * 0.0 == 0.0;
    assert d * 0.5 == d / 2.0;
  }

  lemma MedianOfSortedIsHalfQuantile(s: seq<real>)
    requires Sorted(s) && s != []
    ensures MedianOfSorted(s) == QuantileOfSorted(s, 0.5)
  {
    var n := |s|;
    var k := n / 2;
    var pos := Rank(n, 0.5);
    if n % 2 == 1 {
      assert n == 2 * k + 1;
      assert (n - 1) as real == 2.0 * k as real;
      assert pos == k as real;
      assert pos.Floor == k;
      if k + 1 < n {
        LerpEnds(s[k], s[k + 1]);
        assert QuantileOfSorted(s, 0.5) == Lerp(s[k], s[k + 1], 0.0);
      }
    } else {
      assert n == 2 * k && k >= 1;
      assert (n - 1) as real == 2.0 * (k - 1) as real + 1.0;
      assert pos == (k - 1) as real + 0.5;
      assert pos.Floor == k - 1;
      LerpEnds(s[k - 1], s[k]);
      assert QuantileOfSorted(s, 0.5) == Lerp(s[k - 1], s[k], 0.5);
    }
  }

  /** The median is the 0.5 quantile. */
  lemma MedianIsHalfQuantile(xs: seq<real>)
    ensures Median(xs) == Quantile(xs, 0.5)
  {
    if xs != [] {
      MedianOfSortedIsHalfQuantile(SortAscending(xs));
    }
  }

  lemma SortedMedianSplits(s: seq<real>, m: real)
    requires Sorted(s) && s != []
    requires m == MedianOfSorted(s)
    ensures 2 * Count(s, (x: real) => x <= m) >= |s|
    ensures 2 * Count(s, (x: real) => x >= m) >= |s|
  {
    var n := |s|;
    var k := n / 2;
    if n % 2 == 1 {
      assert m == s[k];
      CountPrefix(s, (x: real) => x <= m, k + 1);
      CountSuffix(s, (x: real) => x >= m, k);
    } else {
      assert s[k - 1] <= m <= s[k];
      CountPrefix(s, (x: real) => x <= m, k);
      CountSuffix(s, (x: real) => x >= m, k);
    }
  }

  /** At least half the values lie at or below the median and at least half at
      or above it. */
  lemma MedianSplits(xs: seq<real>)
    requires xs != []
    ensures 2 * Count(xs, (x: real) => x <= Median(xs).value) >= |xs|
    ensures 2 * Count(xs, (x: real) => x >= Median(xs).value) >= |xs|
  {
    var m := Median(xs).value;
    var s := SortAscending(xs);
    SortedMedianSplits(s, m);
    CountPermutation(xs, s, (x: real) => x <= m);
    CountPermutation(xs, s, (x: real) => x >= m);
  }
}
