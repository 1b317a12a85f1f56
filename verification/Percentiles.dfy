/** Interpolated percentiles over the reals. */
module Percentiles {

  /** What the source computes: nothing for no values, a number, or an index out of range. */
  datatype Outcome = NoValue | IndexError | Value(value: real)

  ghost predicate Sorted(s: seq<real>) {
    forall i, j :: 0 <= i <= j < |s| ==> s[i] <= s[j]
  }

  function Insert(x: real, s: seq<real>): (r: seq<real>)
    ensures |r| == |s| + 1
  {
    if s == [] || x <= s[0] then [x] + s else [s[0]] + Insert(x, s[1..])
  }

  function SortValues(s: seq<real>): (r: seq<real>)
    ensures |r| == |s|
  {
    if s == [] then [] else Insert(s[0], SortValues(s[1..]))
  }

  lemma {:induction false} InsertSorts(x: real, s: seq<real>)
    requires Sorted(s)
    ensures Sorted(Insert(x, s)) && multiset(Insert(x, s)) == multiset(s) + multiset{x}
    ensures forall y :: y in Insert(x, s) ==> y == x || y in s
  {
    if s != [] && x > s[0] {
      InsertSorts(x, s[1..]);
      assert s == [s[0]] + s[1..];
      var r := Insert(x, s[1..]);
      forall i | 0 <= i < |r| ensures s[0] <= r[i] { assert r[i] in r; }
    }
  }

  lemma {:induction false} SortSorts(s: seq<real>)
    ensures Sorted(SortValues(s)) && multiset(SortValues(s)) == multiset(s)
  {
    if s != [] {
      SortSorts(s[1..]);
      InsertSorts(s[0], SortValues(s[1..]));
      assert s == [s[0]] + s[1..];
    }
  }

  lemma {:induction false} RestOf(a: seq<real>)
    requires a != []
    ensures multiset(a[1..]) == multiset(a) - multiset{a[0]}
  {
    assert a == [a[0]] + a[1..];
  }

  lemma {:induction false} FirstIsLeast(a: seq<real>, b: seq<real>)
    requires Sorted(a) && multiset(a) == multiset(b) && a != [] && b != []
    ensures a[0] <= b[0]
  {
    assert b[0] in multiset(a);
    var j :| 0 <= j < |a| && a[j] == b[0];
  }

  /** Only one sorted sequence has given contents. */
  lemma {:induction false} SortedUnique(a: seq<real>, b: seq<real>)
    requires Sorted(a) && Sorted(b) && multiset(a) == multiset(b)
    ensures a == b
  {
    assert |multiset(a)| == |a| && |multiset(b)| == |b|;
    if a != [] {
      FirstIsLeast(a, b);
      FirstIsLeast(b, a);
      RestOf(a);
      RestOf(b);
      SortedUnique(a[1..], b[1..]);
      assert a == [a[0]] + a[1..] && b == [b[0]] + b[1..];
    }
  }

  /** Truncation toward zero. */
  function Truncate(x: real): int {
    if x >= 0.0 then x.Floor else -((-x).Floor)
  }

  /** List indexing with negative indices counting from the end. */
  function At(s: seq<real>, i: int): Outcome {
    if 0 <= i < |s| then Value(s[i])
    else if -|s| <= i < 0 then Value(s[|s| + i])
    else IndexError
  }

  function Rank(n: nat, percent: real): real {
    (n as real - 1.0) * (percent / 100.0)
  }

  function Mix(a: real, b: real, weight: real): real {
    a * (1.0 - weight) + b * weight
  }

  function Interpolate(ordered: seq<real>, rank: real): Outcome {
    var lower := Truncate(rank);
    var upper := if lower + 1 <= |ordered| - 1 then lower + 1 else |ordered| - 1;
    var weight := rank - lower as real;
    var a, b := At(ordered, lower), At(ordered, upper);
    if a.Value? && b.Value? then Value(Mix(a.value, b.value, weight)) else IndexError
  }

  function Percentile(values: seq<real>, percent: real): Outcome {
    var ordered := SortValues(values);
    if ordered == [] then NoValue
    else if |ordered| == 1 then Value(ordered[0])
    else Interpolate(ordered, Rank(|ordered|, percent))
  }

  // ----- Laws -----------------------------------------------------------------------------

  /** The order of the values does not matter, for any percent. */
  lemma {:induction false} PermutationInvariant(a: seq<real>, b: seq<real>, percent: real)
    requires multiset(a) == multiset(b)
    ensures Percentile(a, percent) == Percentile(b, percent)
  {
    SortSorts(a);
    SortSorts(b);
    SortedUnique(SortValues(a), SortValues(b));
  }

  lemma {:induction false} FloorBounds(x: real)
    ensures x.Floor as real <= x < x.Floor as real + 1.0
  {
  }

  lemma {:induction false} Scaled(m: real, p: real, q: real)
    requires m >= 0.0 && p <= q
    ensures m * p <= m * q
  {
    assert m * (q - p) >= 0.0;
  }

  lemma {:induction false} RankBounds(n: nat, percent: real)
    requires n >= 1 && 0.0 <= percent <= 100.0
    ensures 0.0 <= Rank(n, percent) <= n as real - 1.0
  {
    var p, m := percent / 100.0, n as real - 1.0;
    Scaled(m, 0.0, p);
    Scaled(m, p, 1.0);
    assert m * 0.0 == 0.0 && m * 1.0 == m;
    assert Rank(n, percent) == m * p;
  }

  lemma {:induction false} MixIs(a: real, b: real, w: real)
    ensures Mix(a, b, w) == a + w * (b - a)
  {
    assert a * (1.0 - w) == a - a * w;
    assert w * (b - a) == w * b - w * a;
  }

  /** A weighted mean of two ordered numbers lies between them and grows with the weight. */
  lemma {:induction false} Blend(a: real, b: real, w: real, v: real)
    requires a <= b && 0.0 <= w <= v <= 1.0
    ensures a <= Mix(a, b, w) <= Mix(a, b, v) <= b
  {
    hide Mix;
    var d := b - a;
    var x, y := d * w, d * v;
    assert 0.0 <= x <= y <= d by {
      Scaled(d, 0.0, w);
      Scaled(d, w, v);
      Scaled(d, v, 1.0);
      assert d * 0.0 == 0.0 && d * 1.0 == d;
    }
    assert Mix(a, b, w) == a + x by { MixIs(a, b, w); }
    assert Mix(a, b, v) == a + y by { MixIs(a, b, v); }
  }

  function Above(s: seq<real>, k: nat): (up: nat)
    requires k < |s|
    ensures k <= up < |s|
  {
    if k + 1 <= |s| - 1 then k + 1 else |s| - 1
  }

  /** Interpolation at a rank within range uses the values on either side of it. */
  lemma {:induction false} Between(s: seq<real>, rank: real)
    requires Sorted(s) && |s| >= 1 && 0.0 <= rank <= |s| as real - 1.0
    ensures var k := rank.Floor; var w := rank - k as real;
            && 0 <= k < |s| && 0.0 <= w < 1.0
            && Interpolate(s, rank) == Value(Mix(s[k], s[Above(s, k)], w))
            && s[k] <= Interpolate(s, rank).value <= s[Above(s, k)]
  {
    FloorBounds(rank);
    var k := rank.Floor;
    assert 0 <= k < |s|;
    var w := rank - k as real;
    assert Truncate(rank) == k;
    assert At(s, k) == Value(s[k]) && At(s, Above(s, k)) == Value(s[Above(s, k)]);
    assert Interpolate(s, rank) == Value(Mix(s[k], s[Above(s, k)], w));
    Blend(s[k], s[Above(s, k)], w, w);
  }

  lemma {:induction false} InterpolateMonotone(s: seq<real>, r: real, q: real)
    requires Sorted(s) && |s| >= 1 && 0.0 <= r <= q <= |s| as real - 1.0
    ensures Interpolate(s, r).Value? && Interpolate(s, q).Value?
    ensures Interpolate(s, r).value <= Interpolate(s, q).value
  {
    hide Interpolate;
    Between(s, r);
    Between(s, q);
    var k, m := r.Floor, q.Floor;
    FloorBounds(r);
    FloorBounds(q);
    if k == m {
      Blend(s[k], s[Above(s, k)], r - k as real, q - k as real);
    } else {
      assert k + 1 <= m && s[Above(s, k)] <= s[m];
    }
  }

  lemma {:induction false} RanksRise(n: nat, p: real, q: real)
    requires n >= 1 && p <= q
    ensures Rank(n, p) <= Rank(n, q)
  {
    Scaled(n as real - 1.0, p / 100.0, q / 100.0);
  }

  /** Within 0 to 100 a percentile of some values exists, lies between their least and greatest,
      and does not decrease with the percent. */
  lemma {:induction false} PercentileMonotone(values: seq<real>, p: real, q: real)
    requires values != [] && 0.0 <= p <= q <= 100.0
    ensures Percentile(values, p).Value? && Percentile(values, q).Value?
    ensures var s := SortValues(values);
            |s| == |values| && s[0] <= Percentile(values, p).value <= Percentile(values, q).value <= s[|s| - 1]
  {
    hide Interpolate, Rank;
    SortSorts(values);
    var s := SortValues(values);
    if |s| > 1 {
      RanksRise(|s|, p, q);
      RankBounds(|s|, p);
      RankBounds(|s|, q);
      Between(s, Rank(|s|, p));
      Between(s, Rank(|s|, q));
      InterpolateMonotone(s, Rank(|s|, p), Rank(|s|, q));
    }
  }

  // ----- What a percentile is, said of the sorted values ----------------------------------

  lemma {:induction false} SortIs(values: seq<real>, s: seq<real>)
    requires Sorted(s) && multiset(s) == multiset(values)
    ensures SortValues(values) == s && |s| == |values|
  {
    SortSorts(values);
    SortedUnique(SortValues(values), s);
  }

  lemma {:induction false} RankIs(n: nat, percent: real, rank: real)
    requires percent * (n as real - 1.0) == 100.0 * rank
    ensures Rank(n, percent) == rank
  {
    var m, p := n as real - 1.0, percent / 100.0;
    assert percent == 100.0 * p;
    assert percent * m == 100.0 * (m * p);
  }

  /** The whole part of a rank, and its fraction on the same side of zero. */
  ghost predicate Splits(k: int, w: real) {
    (k >= 0 && 0.0 <= w < 1.0) || (k <= 0 && -1.0 < w <= 0.0)
  }

  lemma {:induction false} TruncateIs(k: int, w: real)
    requires Splits(k, w)
    ensures Truncate(k as real + w) == k
  {
    var x := k as real + w;
    FloorBounds(x);
    FloorBounds(-x);
  }

  /** A percentile at rank `k + w` is the value `k` moved by `w` towards its upper neighbour, where
      negative positions count from the end; a rank outside the list in either direction is an
      index error. This covers every percent. */
  lemma {:induction false} PercentileExactly(values: seq<real>, s: seq<real>, percent: real, k: int, w: real)
    requires Sorted(s) && multiset(s) == multiset(values) && |s| >= 2
    requires percent * (|s| as real - 1.0) == 100.0 * (k as real + w) && Splits(k, w)
    ensures !(-|s| <= k < |s|) ==> Percentile(values, percent) == IndexError
    ensures -|s| <= k < |s| ==>
              var up := if k + 1 < |s| then k + 1 else k;
              var a := s[if k < 0 then |s| + k else k];
              var b := s[if up < 0 then |s| + up else up];
              Percentile(values, percent) == Value(a + w * (b - a))
  {
    hide SortValues, Rank, Truncate, Sorted;
    SortIs(values, s);
    RankIs(|s|, percent, k as real + w);
    TruncateIs(k, w);
    if -|s| <= k < |s| {
      var up := if k + 1 < |s| then k + 1 else k;
      var a := s[if k < 0 then |s| + k else k];
      var b := s[if up < 0 then |s| + up else up];
      MixIs(a, b, w);
    }
  }

  /** Within 0 to 100: linear interpolation between two neighbouring order statistics. */
  lemma {:induction false} Interpolates(values: seq<real>, s: seq<real>, percent: real, k: nat, w: real)
    requires Sorted(s) && multiset(s) == multiset(values)
    requires k + 1 < |s| && 0.0 <= w <= 1.0
    requires percent * (|s| as real - 1.0) == 100.0 * (k as real + w)
    ensures Percentile(values, percent) == Value(s[k] + w * (s[k + 1] - s[k]))
  {
    hide Percentile, Sorted;
    if w < 1.0 {
      PercentileExactly(values, s, percent, k, w);
    } else {
      PercentileExactly(values, s, percent, k + 1, 0.0);
    }
  }

  /** At a whole rank the percentile is that order statistic; 0 gives the least value and 100 the
      greatest. */
  lemma {:induction false} OrderStatistic(values: seq<real>, s: seq<real>, percent: real, k: nat)
    requires Sorted(s) && multiset(s) == multiset(values) && s != []
    ensures k < |s| && percent * (|s| as real - 1.0) == 100.0 * k as real ==>
              Percentile(values, percent) == Value(s[k])
    ensures Percentile(values, 0.0) == Value(s[0])
    ensures Percentile(values, 100.0) == Value(s[|s| - 1])
  {
    hide Interpolate, Sorted, SortValues;
    SortIs(values, s);
    if |s| >= 2 {
      if k < |s| && percent * (|s| as real - 1.0) == 100.0 * k as real {
        PercentileExactly(values, s, percent, k, 0.0);
      }
      PercentileExactly(values, s, 0.0, 0, 0.0);
      PercentileExactly(values, s, 100.0, |s| - 1, 0.0);
    }
  }

  /** Below zero the list index wraps around: the percentile -50 of 1, 2, 3 is their greatest. */
  lemma {:induction false} WrapsBelowZero()
    ensures Percentile([1.0, 2.0, 3.0], -50.0) == Value(3.0)
    ensures Percentile([1.0, 2.0, 3.0], 0.0) == Value(1.0)
  {
    hide Percentile;
    var s := [1.0, 2.0, 3.0];
    PercentileExactly(s, s, -50.0, -1, 0.0);
    PercentileExactly(s, s, 0.0, 0, 0.0);
  }

  /** The quantile `num / den` of sorted values, with its rank split by integer division. */
  ghost function Quantile(s: seq<real>, num: nat, den: nat): real
    requires s != [] && num <= den && den > 0
  {
    var t := num * (|s| - 1);
    assert 0 <= t / den <= |s| - 1 by { QuotientBound(num, den, |s| - 1); }
    var k := t / den;
    if k == |s| - 1 then s[k] else s[k] + (t % den) as real / den as real * (s[k + 1] - s[k])
  }

  lemma {:induction false} QuotientBound(num: nat, den: nat, m: nat)
    requires num <= den && den > 0
    ensures 0 <= num * m / den <= m
  {
    var t := num * m;
    assert t <= den * m;
    Quotient(t, den, m);
  }

  lemma {:induction false} Quotient(t: nat, den: nat, m: nat)
    requires den > 0 && t <= den * m
    ensures t / den <= m
  {
    var q := t / den;
    assert den * q <= t;
    CancelLe(den, q, m);
  }

  lemma {:induction false} CancelLe(den: nat, q: nat, m: nat)
    requires den > 0 && den * q <= den * m
    ensures q <= m
  {
  }

  /** The rank of `num / den` in hundredths splits as integer division does. */
  lemma {:induction false} RankSplit(num: nat, den: nat, m: nat)
    requires den > 0
    ensures var t := num * m;
            100.0 * num as real / den as real * m as real ==
            100.0 * ((t / den) as real + (t % den) as real / den as real)
    ensures 0.0 <= (num * m % den) as real / den as real < 1.0
  {
    var t, d := num * m, den as real;
    assert t == den * (t / den) + t % den;
    assert t as real == d * (t / den) as real + (t % den) as real;
    assert num as real * m as real == t as real;
    var f := (t % den) as real / d;
    assert f * d == (t % den) as real;
    Fraction((t % den) as real, d);
    var x := 100.0 * num as real / d * m as real;
    assert x * d == 100.0 * t as real;
    assert (100.0 * ((t / den) as real + f)) * d == 100.0 * t as real;
    Cancel(x, 100.0 * ((t / den) as real + f), d);
  }

  lemma {:induction false} Fraction(a: real, d: real)
    requires 0.0 <= a < d
    ensures 0.0 <= a / d < 1.0
  {
  }

  lemma {:induction false} Cancel(x: real, y: real, d: real)
    requires d > 0.0 && x * d == y * d
    ensures x == y
  {
  }

  lemma {:induction false} SingleValue(values: seq<real>, s: seq<real>, percent: real)
    requires Sorted(s) && multiset(s) == multiset(values) && |s| == 1
    ensures Percentile(values, percent) == Value(s[0])
  {
    SortIs(values, s);
  }

  /** A percentile given as a fraction is that quantile of the sorted values. */
  lemma {:induction false} PercentileIsQuantile(values: seq<real>, s: seq<real>, num: nat, den: nat)
    requires Sorted(s) && multiset(s) == multiset(values) && s != [] && num <= den && den > 0
    ensures Percentile(values, 100.0 * num as real / den as real) == Value(Quantile(s, num, den))
  {
    hide Percentile, Sorted;
    var percent, m := 100.0 * num as real / den as real, |s| - 1;
    QuotientBound(num, den, m);
    if m == 0 {
      SingleValue(values, s, percent);
    } else {
      var k, w := num * m / den, (num * m % den) as real / den as real;
      RankSplit(num, den, m);
      PercentileExactly(values, s, percent, k, w);
      assert k < m ==> Quantile(s, num, den) == s[k] + w * (s[k + 1] - s[k]);
    }
  }

  datatype Summary = Summary(
    count: nat, min: Outcome, max: Outcome, median: Outcome, p50: Outcome, p90: Outcome, p95: Outcome)

  function Summarize(values: seq<real>): Summary {
    var ordered := SortValues(values);
    if ordered == [] then
      Summary(0, NoValue, NoValue, NoValue, NoValue, NoValue, NoValue)
    else
      Summary(|ordered|, At(ordered, 0), At(ordered, -1), Percentile(ordered, 50.0),
              Percentile(ordered, 50.0), Percentile(ordered, 90.0), Percentile(ordered, 95.0))
  }

  /** A summary of no values is empty; otherwise it holds the count, the least and the greatest
      value and the quantiles 1/2, 9/10 and 19/20, which ascend. */
  lemma {:induction false} SummaryExactly(values: seq<real>, s: seq<real>)
    requires Sorted(s) && multiset(s) == multiset(values)
    ensures s == [] ==> Summarize(values) == Summary(0, NoValue, NoValue, NoValue, NoValue, NoValue, NoValue)
    ensures s != [] ==>
              && Summarize(values) ==
                   Summary(|values|, Value(s[0]), Value(s[|s| - 1]), Value(Quantile(s, 1, 2)),
                           Value(Quantile(s, 1, 2)), Value(Quantile(s, 9, 10)), Value(Quantile(s, 19, 20)))
              && s[0] <= Quantile(s, 1, 2) <= Quantile(s, 9, 10) <= Quantile(s, 19, 20) <= s[|s| - 1]
  {
    hide Percentile, Interpolate, Sorted, SortValues, Quantile;
    SortIs(values, s);
    if s != [] {
      PercentileIsQuantile(s, s, 1, 2);
      PercentileIsQuantile(s, s, 9, 10);
      PercentileIsQuantile(s, s, 19, 20);
      SortIs(s, s);
      PercentileMonotone(s, 50.0, 90.0);
      PercentileMonotone(s, 90.0, 95.0);
    }
  }

  /** The least and the greatest value of a summary are values and bound all values. */
  lemma {:induction false} SummaryBounds(values: seq<real>)
    requires values != []
    ensures var r := Summarize(values);
            && r.count == |values| && r.min.Value? && r.max.Value?
            && r.min.value in values && r.max.value in values
            && forall x :: x in values ==> r.min.value <= x <= r.max.value
  {
    hide Percentile, Sorted;
    SortSorts(values);
    Extremes(values, SortValues(values));
  }

  lemma {:induction false} Extremes(values: seq<real>, ordered: seq<real>)
    requires Sorted(ordered) && multiset(ordered) == multiset(values) && ordered != []
    ensures ordered[0] in values && ordered[|ordered| - 1] in values
    ensures forall x :: x in values ==> ordered[0] <= x <= ordered[|ordered| - 1]
  {
    assert ordered[0] in multiset(values) && ordered[|ordered| - 1] in multiset(values);
    forall x | x in values ensures ordered[0] <= x <= ordered[|ordered| - 1] {
      assert x in multiset(ordered);
      var i :| 0 <= i < |ordered| && ordered[i] == x;
    }
  }
}
