/** Interpolated percentiles of latencies: `_latency_stats` of benchmark/request.py and
    `_pct` of benchmark/runner.py, over exact reals. */
module Percentile {

  import opened Wrappers

  // ---------------------------------------------------------------- sorting

  predicate Sorted(s: seq<real>) {
    forall i, j :: 0 <= i < j < |s| ==> s[i] <= s[j]
  }

  function Insert(x: real, s: seq<real>): seq<real> {
    if s == [] || x <= s[0] then [x] + s else [s[0]] + Insert(x, s[1..])
  }

  /** `sorted(values)`. */
  function Sort(values: seq<real>): seq<real> {
    if values == [] then [] else Insert(values[0], Sort(values[1..]))
  }

  /** Each position after an insertion, in terms of its neighbours before it. */
  function Inserted(x: real, s: seq<real>, i: nat): real
    requires i <= |s|
  {
    var right := if i == |s| || x <= s[i] then x else s[i];
    if i == 0 || s[i - 1] <= right then right else s[i - 1]
  }

  lemma {:induction false} InsertAt(x: real, s: seq<real>)
    requires Sorted(s)
    ensures |Insert(x, s)| == |s| + 1
    ensures forall i :: 0 <= i <= |s| ==> Insert(x, s)[i] == Inserted(x, s, i)
  {
    if s != [] && s[0] < x {
      InsertAt(x, s[1..]);
      forall i | 0 <= i <= |s|
        ensures Insert(x, s)[i] == Inserted(x, s, i)
      {
        if i > 0 {
          assert Insert(x, s)[i] == Insert(x, s[1..])[i - 1] == Inserted(x, s[1..], i - 1);
        }
      }
    }
  }

  lemma InsertSorts(x: real, s: seq<real>)
    requires Sorted(s)
    ensures Sorted(Insert(x, s))
  {
    InsertAt(x, s);
  }

  lemma {:induction false} InsertAdds(x: real, s: seq<real>)
    ensures multiset(Insert(x, s)) == multiset{x} + multiset(s)
  {
    if s != [] && s[0] < x {
      InsertAdds(x, s[1..]);
      assert s == [s[0]] + s[1..];
    }
  }

  lemma {:induction false} SortSorts(values: seq<real>)
    ensures Sorted(Sort(values)) && multiset(Sort(values)) == multiset(values) && |Sort(values)| == |values|
  {
    if values != [] {
      SortSorts(values[1..]);
      InsertAt(values[0], Sort(values[1..]));
      InsertSorts(values[0], Sort(values[1..]));
      InsertAdds(values[0], Sort(values[1..]));
      assert values == [values[0]] + values[1..];
    }
  }

  lemma HeadIsLeast(a: seq<real>, b: seq<real>)
    requires Sorted(a) && a != [] && multiset(a) == multiset(b) && b != []
    ensures a[0] <= b[0]
  {
    assert b[0] in multiset(b);
    assert b[0] in a;
  }

  /** There is one sorted arrangement of a multiset. */
  lemma {:induction false} SortedIsUnique(a: seq<real>, b: seq<real>)
    requires Sorted(a) && Sorted(b) && multiset(a) == multiset(b)
    ensures a == b
    decreases |a|
  {
    assert |a| == |multiset(a)| == |multiset(b)| == |b|;
    if a != [] {
      HeadIsLeast(a, b);
      HeadIsLeast(b, a);
      assert a == [a[0]] + a[1..] && b == [b[0]] + b[1..];
      assert multiset(a[1..]) == multiset(a) - multiset{a[0]} == multiset(b[1..]);
      SortedIsUnique(a[1..], b[1..]);
    }
  }

  /** `a` is nowhere above `b`. */
  predicate Dominated(a: seq<real>, b: seq<real>) {
    |a| == |b| && forall i :: 0 <= i < |a| ==> a[i] <= b[i]
  }

  lemma InsertKeepsDominance(x: real, a: seq<real>, y: real, b: seq<real>)
    requires x <= y && Dominated(a, b) && Sorted(a) && Sorted(b)
    ensures Dominated(Insert(x, a), Insert(y, b))
  {
    InsertAt(x, a);
    InsertAt(y, b);
  }

  /** Sorting keeps pointwise dominance, although it pairs the values up anew. */
  lemma {:induction false} SortKeepsDominance(a: seq<real>, b: seq<real>)
    requires Dominated(a, b)
    ensures Dominated(Sort(a), Sort(b))
  {
    if a != [] {
      SortKeepsDominance(a[1..], b[1..]);
      SortSorts(a[1..]);
      SortSorts(b[1..]);
      InsertKeepsDominance(a[0], Sort(a[1..]), b[0], Sort(b[1..]));
    }
  }

  // ---------------------------------------------------------------- products of reals

  lemma Product(a: real, b: real)
    requires 0.0 <= a && 0.0 <= b
    ensures 0.0 <= a * b
  {
  }

  lemma ScaleUp(a: real, b: real, w: real)
    requires a <= b && 0.0 <= w
    ensures a * w <= b * w
  {
    Product(b - a, w);
    assert (b - a) * w == b * w - a * w;
  }

  /** The point at weight `w` between `a` and `b`. */
  function Line(a: real, b: real, w: real): real {
    a + (b - a) * w
  }

  lemma LineIsMix(a: real, b: real, w: real)
    ensures Line(a, b, w) == a * (1.0 - w) + b * w
  {
  }

  lemma LineBetween(a: real, b: real, w: real)
    requires a <= b && 0.0 <= w <= 1.0
    ensures a <= Line(a, b, w) <= b
  {
    Product(b - a, w);
    ScaleUp(w, 1.0, b - a);
    assert (b - a) * w == w * (b - a);
  }

  lemma LineRises(a: real, b: real, v: real, w: real)
    requires a <= b && v <= w
    ensures Line(a, b, v) <= Line(a, b, w)
  {
    ScaleUp(v, w, b - a);
    assert v * (b - a) == (b - a) * v && w * (b - a) == (b - a) * w;
  }

  lemma LineIsDominated(a: real, b: real, c: real, d: real, w: real)
    requires a <= c && b <= d && 0.0 <= w <= 1.0
    ensures Line(a, b, w) <= Line(c, d, w)
  {
    Product(c - a, 1.0 - w);
    Product(d - b, w);
    assert Line(c, d, w) - Line(a, b, w) == (c - a) * (1.0 - w) + (d - b) * w;
  }

  // ---------------------------------------------------------------- the two interpolations

  /** `fraction` of the way along `n` values. */
  function Along(fraction: real, n: nat): real
    requires n > 0
  {
    fraction * ((n - 1) as real)
  }

  lemma AlongRises(a: real, b: real, n: nat)
    requires n > 0 && a <= b
    ensures Along(a, n) <= Along(b, n)
  {
    var m := (n - 1) as real;
    ScaleUp(a, b, m);
    assert Along(a, n) == a * m && Along(b, n) == b * m;
  }

  lemma AlongIsWithin(fraction: real, n: nat)
    requires n > 0 && 0.0 <= fraction <= 1.0
    ensures 0.0 <= Along(fraction, n) <= (n - 1) as real
  {
    var m := (n - 1) as real;
    assert Along(0.0, n) == 0.0 && Along(1.0, n) == m;
    AlongRises(0.0, fraction, n);
    AlongRises(fraction, 1.0, n);
  }

  /** The fractional index of percentile `p`. */
  function Index(n: nat, p: real): (x: real)
    requires n > 0 && 0.0 <= p <= 100.0
    ensures 0.0 <= x <= (n - 1) as real
  {
    AlongIsWithin(p / 100.0, n);
    Along(p / 100.0, n)
  }

  /** The value at fractional index `x`, between its two neighbours. */
  function Interpolate(s: seq<real>, x: real): real
    requires s != [] && 0.0 <= x <= (|s| - 1) as real
  {
    var lo, hi := x.Floor, Min(x.Floor + 1, |s| - 1);
    Line(s[lo], s[hi], x - lo as real)
  }

  /** `percentile` inside `_latency_stats`. */
  function LatencyPercentile(sorted: seq<real>, p: real): real
    requires sorted != [] && 0.0 <= p <= 100.0
  {
    Interpolate(sorted, Index(|sorted|, p))
  }

  /** `_pct` of the results writer. */
  function RunnerPercentile(values: seq<real>, p: real): real
    requires 0.0 <= p <= 100.0
  {
    if values == [] then 0.0
    else if |values| == 1 then values[0]
    else
      var k := Index(|values|, p);
      var lo, hi := k.Floor, Min(k.Floor + 1, |values| - 1);
      values[lo] * (1.0 - (k - lo as real)) + values[hi] * (k - lo as real)
  }

  // ---------------------------------------------------------------- what a percentile is

  /** `p` percent of the way from the first of `n` values to the last is `w` of the way from value
      `k` to the next. */
  predicate FallsAt(n: nat, p: real, k: nat, w: real) {
    k + 1 < n && 0.0 <= w <= 1.0 && 100.0 * (k as real + w) == p * (n - 1) as real
  }

  /** `v` is percentile `p` of sorted values: the mix of the two between which it falls. */
  ghost predicate IsPercentile(v: real, sorted: seq<real>, p: real) {
    && (|sorted| == 1 ==> v == sorted[0])
    && forall k: nat, w: real :: FallsAt(|sorted|, p, k, w) ==> v == (1.0 - w) * sorted[k] + w * sorted[k + 1]
  }

  lemma IndexIs(n: nat, p: real)
    requires n > 0 && 0.0 <= p <= 100.0
    ensures 100.0 * Index(n, p) == p * (n - 1) as real
  {
    var m := (n - 1) as real;
    assert 100.0 * (p / 100.0 * m) == (100.0 * (p / 100.0)) * m;
  }

  /** Every percentile of two or more values falls somewhere. */
  lemma PercentileFalls(n: nat, p: real) returns (k: nat, w: real)
    requires n > 1 && 0.0 <= p <= 100.0
    ensures FallsAt(n, p, k, w)
  {
    var x := Index(n, p);
    IndexIs(n, p);
    k := if x.Floor == n - 1 then n - 2 else x.Floor;
    w := x - k as real;
  }

  /** At fractional index `k + w` the interpolation is the mix of the neighbours. */
  lemma InterpolateAt(s: seq<real>, x: real, k: nat, w: real)
    requires k + 1 < |s| && 0.0 <= w <= 1.0 && x == k as real + w
    ensures 0.0 <= x <= (|s| - 1) as real
    ensures Interpolate(s, x) == (1.0 - w) * s[k] + w * s[k + 1]
  {
    if w < 1.0 {
      assert x.Floor == k;
      LineIsMix(s[k], s[k + 1], w);
    } else {
      assert x.Floor == k + 1;
      LineIsMix(s[k + 1], s[Min(k + 2, |s| - 1)], 0.0);
    }
  }

  lemma MixAt(sorted: seq<real>, p: real, k: nat, w: real)
    requires FallsAt(|sorted|, p, k, w) && 0.0 <= p <= 100.0
    ensures LatencyPercentile(sorted, p) == (1.0 - w) * sorted[k] + w * sorted[k + 1]
  {
    IndexIs(|sorted|, p);
    InterpolateAt(sorted, Index(|sorted|, p), k, w);
  }

  /** Both formulas compute the percentile: the mix of the two values between which it falls, and
      the value itself when there is only one. */
  lemma {:induction false} FormulasAgree(values: seq<real>, p: real)
    requires values != [] && 0.0 <= p <= 100.0
    ensures LatencyPercentile(values, p) == RunnerPercentile(values, p)
    ensures IsPercentile(LatencyPercentile(values, p), values, p)
  {
    var x := Index(|values|, p);
    LineIsMix(values[x.Floor], values[Min(x.Floor + 1, |values| - 1)], x - x.Floor as real);
    forall k: nat, w: real | FallsAt(|values|, p, k, w)
      ensures LatencyPercentile(values, p) == (1.0 - w) * values[k] + w * values[k + 1]
    {
      MixAt(values, p, k, w);
    }
  }

  lemma InterpolateBetween(s: seq<real>, x: real)
    requires s != [] && Sorted(s) && 0.0 <= x <= (|s| - 1) as real
    ensures s[x.Floor] <= Interpolate(s, x) <= s[Min(x.Floor + 1, |s| - 1)]
  {
    LineBetween(s[x.Floor], s[Min(x.Floor + 1, |s| - 1)], x - x.Floor as real);
  }

  lemma InterpolateIsMonotone(s: seq<real>, x: real, y: real)
    requires s != [] && Sorted(s) && 0.0 <= x <= y <= (|s| - 1) as real
    ensures Interpolate(s, x) <= Interpolate(s, y)
  {
    if x.Floor == y.Floor {
      var lo, hi := x.Floor, Min(x.Floor + 1, |s| - 1);
      LineRises(s[lo], s[hi], x - lo as real, y - lo as real);
    } else {
      InterpolateBetween(s, x);
      InterpolateBetween(s, y);
    }
  }

  lemma InterpolateIsDominated(s: seq<real>, t: seq<real>, x: real)
    requires s != [] && Dominated(s, t) && 0.0 <= x <= (|s| - 1) as real
    ensures Interpolate(s, x) <= Interpolate(t, x)
  {
    var lo, hi := x.Floor, Min(x.Floor + 1, |s| - 1);
    LineIsDominated(s[lo], s[hi], t[lo], t[hi], x - lo as real);
  }

  // ---------------------------------------------------------------- latency statistics

  /** A percentile of unsorted latencies. */
  function PercentileOf(values: seq<real>, p: real): real
    requires values != [] && 0.0 <= p <= 100.0
  {
    SortSorts(values);
    LatencyPercentile(Sort(values), p)
  }

  lemma SortKeepsBounds(values: seq<real>, low: real, high: real)
    requires forall v <- values :: low <= v <= high
    ensures forall i :: 0 <= i < |Sort(values)| ==> low <= Sort(values)[i] <= high
  {
    SortSorts(values);
    var s := Sort(values);
    forall i | 0 <= i < |s|
      ensures low <= s[i] <= high
    {
      assert s[i] in multiset(s);
      assert s[i] in multiset(values);
      assert s[i] in values;
    }
  }

  lemma PercentileBetweenExtremes(values: seq<real>, p: real, low: real, high: real)
    requires values != [] && 0.0 <= p <= 100.0
    requires forall v <- values :: low <= v <= high
    ensures low <= PercentileOf(values, p) <= high
  {
    SortSorts(values);
    var s := Sort(values);
    SortKeepsBounds(values, low, high);
    InterpolateBetween(s, Index(|s|, p));
  }

  lemma PercentileIsMonotone(values: seq<real>, p: real, q: real)
    requires values != [] && 0.0 <= p <= q <= 100.0
    ensures PercentileOf(values, p) <= PercentileOf(values, q)
  {
    SortSorts(values);
    var s := Sort(values);
    AlongRises(p / 100.0, q / 100.0, |s|);
    InterpolateIsMonotone(s, Index(|s|, p), Index(|s|, q));
  }

  /** The order in which requests finished does not matter. */
  lemma PercentileIgnoresOrder(values: seq<real>, other: seq<real>, p: real)
    requires values != [] && other != [] && multiset(values) == multiset(other) && 0.0 <= p <= 100.0
    ensures PercentileOf(values, p) == PercentileOf(other, p)
  {
    SortSorts(values);
    SortSorts(other);
    SortedIsUnique(Sort(values), Sort(other));
  }

  /** Raising latencies pointwise never lowers a percentile. */
  lemma PercentileIsDominated(fast: seq<real>, slow: seq<real>, p: real)
    requires fast != [] && Dominated(fast, slow) && 0.0 <= p <= 100.0
    ensures PercentileOf(fast, p) <= PercentileOf(slow, p)
  {
    SortSorts(fast);
    SortSorts(slow);
    SortKeepsDominance(fast, slow);
    InterpolateIsDominated(Sort(fast), Sort(slow), Index(|fast|, p));
  }

  datatype LatencyStats = LatencyStats(
    mean: Option<real>, p50: Option<real>, higherIsBetter: bool,
    p95: Option<real>, p99: Option<real>, p05: Option<real>, p10: Option<real>)

  function Mean(values: seq<real>): real
    requires values != []
  {
    Sum(values) / |values| as real
  }

  /** `_latency_stats`. */
  function LatencyStatsOf(values: seq<real>, higherIsBetter: bool): LatencyStats {
    if values == [] then LatencyStats(None, None, higherIsBetter, None, None, None, None)
    else
      var mean := Some(Mean(values));
      var at := p requires 0.0 <= p <= 100.0 => Some(PercentileOf(values, p));
      if higherIsBetter then LatencyStats(mean, at(50.0), true, None, None, at(5.0), at(10.0))
      else LatencyStats(mean, at(50.0), false, at(95.0), at(99.0), None, None)
  }

  /** `v` is reported, and is percentile `p` of the sorted values. */
  ghost predicate Reports(v: Option<real>, sorted: seq<real>, p: real) {
    v.Some? && IsPercentile(v.value, sorted, p)
  }

  lemma PercentileOfIs(values: seq<real>, sorted: seq<real>, p: real)
    requires values != [] && 0.0 <= p <= 100.0 && Sorted(sorted) && multiset(sorted) == multiset(values)
    ensures Reports(Some(PercentileOf(values, p)), sorted, p)
  {
    SortSorts(values);
    SortedIsUnique(Sort(values), sorted);
    FormulasAgree(sorted, p);
  }

  /** Which statistics are set, and at which percentiles. */
  lemma FieldsAre(values: seq<real>, higherIsBetter: bool)
    requires values != []
    ensures LatencyStatsOf(values, higherIsBetter)
         == LatencyStats(Some(Mean(values)), Some(PercentileOf(values, 50.0)), higherIsBetter,
                         if higherIsBetter then None else Some(PercentileOf(values, 95.0)),
                         if higherIsBetter then None else Some(PercentileOf(values, 99.0)),
                         if higherIsBetter then Some(PercentileOf(values, 5.0)) else None,
                         if higherIsBetter then Some(PercentileOf(values, 10.0)) else None)
  {
  }

  /** The mean times the number of values is their sum. */
  ghost predicate IsMean(m: real, values: seq<real>) {
    m * |values| as real == Sum(values)
  }

  lemma MeanIs(values: seq<real>)
    requires values != []
    ensures IsMean(Mean(values), values)
  {
    Undivide(Sum(values), |values| as real, Mean(values));
  }

  lemma Undivide(a: real, b: real, c: real)
    requires b > 0.0 && c == a / b
    ensures c * b == a
  {
  }

  /** What is reported: the mean, the median and the two percentiles of the bad end. */
  lemma StatsAre(values: seq<real>, sorted: seq<real>, higherIsBetter: bool)
    requires values != [] && Sorted(sorted) && multiset(sorted) == multiset(values)
    ensures var s := LatencyStatsOf(values, higherIsBetter);
            && s.higherIsBetter == higherIsBetter
            && s.mean.Some? && IsMean(s.mean.value, values) && Reports(s.p50, sorted, 50.0)
            && (if higherIsBetter
                then s.p95 == s.p99 == None && Reports(s.p05, sorted, 5.0) && Reports(s.p10, sorted, 10.0)
                else s.p05 == s.p10 == None && Reports(s.p95, sorted, 95.0) && Reports(s.p99, sorted, 99.0))
  {
    FieldsAre(values, higherIsBetter);
    MeanIs(values);
    PercentileOfIs(values, sorted, 50.0);
    PercentileOfIs(values, sorted, 5.0);
    PercentileOfIs(values, sorted, 10.0);
    PercentileOfIs(values, sorted, 95.0);
    PercentileOfIs(values, sorted, 99.0);
  }

  /** No latencies, no statistics. */
  lemma NoStats(higherIsBetter: bool)
    ensures LatencyStatsOf([], higherIsBetter) == LatencyStats(None, None, higherIsBetter, None, None, None, None)
  {
  }

  /** The worst-case tail is on the right side of the median in both modes, and the fields of
      the other mode stay unset. */
  lemma TailsAreOrdered(values: seq<real>, higherIsBetter: bool)
    requires values != []
    ensures var s := LatencyStatsOf(values, higherIsBetter);
            && s.mean.Some? && s.p50.Some?
            && (higherIsBetter ==> s.p95 == s.p99 == None && s.p05.Some? && s.p10.Some?
                                   && s.p05.value <= s.p10.value <= s.p50.value)
            && (!higherIsBetter ==> s.p05 == s.p10 == None && s.p95.Some? && s.p99.Some?
                                    && s.p50.value <= s.p95.value <= s.p99.value)
  {
    PercentileIsMonotone(values, 5.0, 10.0);
    PercentileIsMonotone(values, 10.0, 50.0);
    PercentileIsMonotone(values, 50.0, 95.0);
    PercentileIsMonotone(values, 95.0, 99.0);
  }

  lemma MeanGrows(a: real, b: real, n: nat)
    requires a <= b && n > 0
    ensures a / n as real <= b / n as real
  {
    var i := 1.0 / n as real;
    ScaleUp(a, b, i);
    assert a / n as real == a * i && b / n as real == b * i;
  }

  /** A slower run is slower in every statistic that is reported. */
  lemma {:induction false} SlowerRunIsSlowerThroughout(fast: seq<real>, slow: seq<real>)
    requires fast != [] && Dominated(fast, slow)
    ensures var (f, s) := (LatencyStatsOf(fast, false), LatencyStatsOf(slow, false));
            && f.mean.value <= s.mean.value && f.p50.value <= s.p50.value
            && f.p95.value <= s.p95.value && f.p99.value <= s.p99.value
    ensures var (f, s) := (LatencyStatsOf(fast, true), LatencyStatsOf(slow, true));
            && f.mean.value <= s.mean.value && f.p50.value <= s.p50.value
            && f.p05.value <= s.p05.value && f.p10.value <= s.p10.value
  {
    SumIsDominated(fast, slow);
    MeanGrows(Sum(fast), Sum(slow), |fast|);
    PercentileIsDominated(fast, slow, 5.0);
    PercentileIsDominated(fast, slow, 10.0);
    PercentileIsDominated(fast, slow, 50.0);
    PercentileIsDominated(fast, slow, 95.0);
    PercentileIsDominated(fast, slow, 99.0);
  }

  lemma {:induction false} SumIsDominated(a: seq<real>, b: seq<real>)
    requires Dominated(a, b)
    ensures Sum(a) <= Sum(b)
  {
    if a != [] {
      SumIsDominated(a[..|a| - 1], b[..|b| - 1]);
    }
  }
}
