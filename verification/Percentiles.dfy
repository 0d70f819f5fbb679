/** Interpolated percentiles, and the intervals between two of them. */
module Percentiles {
  import opened Sorting

  predicate RealLeq(a: real, b: real) {
    a <= b
  }

  lemma RealOrder()
    ensures TotalOrder(RealLeq)
  {}

  // --- Percentiles --------------------------------------------------------------------------

  function Ceiling(x: real): int {
    -(-x).Floor
  }

  /** The value at a position between the entries of a sorted list. */
  function Interpolated(ordered: seq<real>, position: real): real
    requires 0.0 <= position && Ceiling(position) < |ordered|
  {
    var lower, upper := position.Floor, Ceiling(position);
    if lower == upper then ordered[lower]
    else ordered[lower] + (ordered[upper] - ordered[lower]) * (position - lower as real)
  }

  function Position(n: nat, p: real): real {
    p * (n - 1) as real
  }

  /** The index stays in range for every probability from 0 to 1. */
  lemma PositionInRange(n: nat, p: real)
    requires n > 0 && 0.0 <= p <= 1.0
    ensures 0.0 <= Position(n, p) <= (n - 1) as real && 0 <= Position(n, p).Floor && Ceiling(Position(n, p)) < n
  {
    ScaleUnit(p, (n - 1) as real);
  }

  lemma ScaleUnit(p: real, m: real)
    requires 0.0 <= p <= 1.0 && m >= 0.0
    ensures 0.0 <= p * m <= m
  {
    assert p * m >= 0.0;
    assert (1.0 - p) * m >= 0.0;
    assert (1.0 - p) * m == m - p * m;
  }

  lemma ScaleLeq(x: real, y: real, m: real)
    requires x <= y && m >= 0.0
    ensures x * m <= y * m
  {
    assert (y - x) * m >= 0.0;
  }

  lemma PositionMonotone(n: nat, p: real, q: real)
    requires n > 0 && p <= q
    ensures Position(n, p) <= Position(n, q)
  {
    ScaleLeq(p, q, (n - 1) as real);
  }

  lemma SortedLength(values: seq<real>)
    ensures |Sort(values, RealLeq)| == |values|
  {
    SortPermutes(values, RealLeq);
  }

  function Percentile(values: seq<real>, p: real): real
    requires values != [] && 0.0 <= p <= 1.0
  {
    SortedLength(values);
    PositionInRange(|values|, p);
    Interpolated(Sort(values, RealLeq), Position(|values|, p))
  }

  /** An interpolated value lies between its two neighbours. */
  lemma BetweenNeighbours(ordered: seq<real>, x: real)
    requires Sorted(ordered, RealLeq) && 0.0 <= x && Ceiling(x) < |ordered|
    ensures ordered[x.Floor] <= Interpolated(ordered, x) <= ordered[Ceiling(x)]
  {
    var lower, upper := x.Floor, Ceiling(x);
    if lower != upper {
      assert RealLeq(ordered[lower], ordered[upper]);
      var d, t := ordered[upper] - ordered[lower], x - lower as real;
      ScaleUnit(t, d);
      assert Interpolated(ordered, x) == ordered[lower] + d * t;
      assert d * t == t * d <= d;
    }
  }

  lemma Entries(ordered: seq<real>, i: nat, j: nat)
    requires Sorted(ordered, RealLeq) && i <= j < |ordered|
    ensures ordered[i] <= ordered[j]
  {
    if i < j {
      assert RealLeq(ordered[i], ordered[j]);
    }
  }

  lemma InterpolatedMonotone(ordered: seq<real>, x: real, y: real)
    requires Sorted(ordered, RealLeq) && 0.0 <= x <= y && Ceiling(x) < |ordered| && Ceiling(y) < |ordered|
    ensures Interpolated(ordered, x) <= Interpolated(ordered, y)
  {
    BetweenNeighbours(ordered, x);
    BetweenNeighbours(ordered, y);
    if Ceiling(x) <= y.Floor {
      Entries(ordered, Ceiling(x), y.Floor);
    } else {
      SameSegment(ordered, x, y);
    }
  }

  function Along(a: real, d: real, t: real): real {
    a + d * t
  }

  lemma AlongMonotone(a: real, d: real, s: real, t: real)
    requires d >= 0.0 && s <= t
    ensures Along(a, d, s) <= Along(a, d, t)
  {
    ScaleLeq(s, t, d);
  }

  lemma AlongIs(ordered: seq<real>, x: real, lower: int, upper: int)
    requires 0.0 <= x && 0 <= lower == x.Floor < upper == Ceiling(x) < |ordered|
    ensures Interpolated(ordered, x) == Along(ordered[lower], ordered[upper] - ordered[lower], x - lower as real)
  {}

  lemma SameSegment(ordered: seq<real>, x: real, y: real)
    requires Sorted(ordered, RealLeq) && 0.0 <= x <= y && Ceiling(x) < |ordered| && Ceiling(y) < |ordered|
    requires Ceiling(x) > y.Floor
    ensures Interpolated(ordered, x) <= Interpolated(ordered, y)
  {
    var lower, upper := x.Floor, Ceiling(x);
    Entries(ordered, lower, upper);
    assert lower == y.Floor < upper == Ceiling(y);
    AlongIs(ordered, x, lower, upper);
    AlongIs(ordered, y, lower, upper);
    AlongMonotone(ordered[lower], ordered[upper] - ordered[lower], x - lower as real, y - lower as real);
  }

  /** Percentiles do not fall as the probability rises. */
  lemma PercentileMonotone(values: seq<real>, p: real, q: real)
    requires values != [] && 0.0 <= p <= q <= 1.0
    ensures Percentile(values, p) <= Percentile(values, q)
  {
    var ordered := Sort(values, RealLeq);
    RealOrder();
    SortSorts(values, RealLeq);
    SortedLength(values);
    PositionInRange(|values|, p);
    PositionInRange(|values|, q);
    PositionMonotone(|values|, p, q);
    InterpolatedMonotone(ordered, Position(|values|, p), Position(|values|, q));
  }

  ghost predicate Bounded(values: seq<real>, lo: real, hi: real) {
    forall i :: 0 <= i < |values| ==> lo <= values[i] <= hi
  }

  /** Percentiles stay in the range of the sample. */
  lemma PercentileBetween(values: seq<real>, p: real, lo: real, hi: real)
    requires values != [] && 0.0 <= p <= 1.0 && Bounded(values, lo, hi)
    ensures lo <= Percentile(values, p) <= hi
  {
    var ordered := Sort(values, RealLeq);
    RealOrder();
    SortSorts(values, RealLeq);
    SortedLength(values);
    SortedWithin(values, lo, hi);
    PositionInRange(|values|, p);
    BetweenNeighbours(ordered, Position(|values|, p));
  }

  lemma SortedWithin(values: seq<real>, lo: real, hi: real)
    requires Bounded(values, lo, hi)
    ensures Bounded(Sort(values, RealLeq), lo, hi)
  {
    var ordered := Sort(values, RealLeq);
    SortPermutes(values, RealLeq);
    forall i | 0 <= i < |ordered| ensures lo <= ordered[i] <= hi {
      assert ordered[i] in multiset(ordered) && ordered[i] in multiset(values) && ordered[i] in values;
    }
  }

  /** Percentiles do not depend on the order of the sample. */
  lemma PercentilePermuted(a: seq<real>, b: seq<real>, p: real)
    requires a != [] && b != [] && multiset(a) == multiset(b) && 0.0 <= p <= 1.0
    ensures Percentile(a, p) == Percentile(b, p)
  {
    RealOrder();
    SortCanonical(a, b, RealLeq);
    assert |a| == |multiset(a)| == |multiset(b)| == |b|;
  }

  // --- What a percentile is -----------------------------------------------------------------

  function AtMost(x: real): real -> bool {
    (y: real) => y <= x
  }

  function AtLeast(x: real): real -> bool {
    (y: real) => y >= x
  }

  /** x is a value of the sample; at least k + 1 values are at most x, and all but k values at least are at least x. */
  ghost predicate IsOrderStatistic(values: seq<real>, k: nat, x: real) {
    && x in values && k < |values|
    && Count(AtMost(x), values) >= k + 1 && Count(AtLeast(x), values) >= |values| - k
  }

  /** A part that has the property counts in full. */
  lemma CountPart(p: real -> bool, s: seq<real>, i: nat, j: nat)
    requires i <= j <= |s| && forall k :: i <= k < j ==> p(s[k])
    ensures Count(p, s) >= j - i
  {
    var a, b, c := s[..i], s[i..j], s[j..];
    assert s == a + (b + c);
    CountConcat(p, a, b + c);
    CountConcat(p, b, c);
    CountAll(p, b);
  }

  lemma SortedStatistic(ordered: seq<real>, k: nat)
    requires Sorted(ordered, RealLeq) && k < |ordered|
    ensures IsOrderStatistic(ordered, k, ordered[k])
  {
    forall i | 0 <= i < k + 1 ensures AtMost(ordered[k])(ordered[i]) {
      Entries(ordered, i, k);
    }
    forall i | k <= i < |ordered| ensures AtLeast(ordered[k])(ordered[i]) {
      Entries(ordered, k, i);
    }
    CountPart(AtMost(ordered[k]), ordered, 0, k + 1);
    CountPart(AtLeast(ordered[k]), ordered, k, |ordered|);
  }

  lemma StatisticPermuted(a: seq<real>, b: seq<real>, k: nat, x: real)
    requires multiset(a) == multiset(b) && IsOrderStatistic(a, k, x)
    ensures IsOrderStatistic(b, k, x)
  {
    assert x in multiset(a) && x in multiset(b);
    assert |a| == |multiset(a)| == |multiset(b)| == |b|;
    CountPermuted(AtMost(x), a, b);
    CountPermuted(AtLeast(x), a, b);
  }

  lemma WholeFloor(x: real, k: int)
    requires x == k as real
    ensures x.Floor == k && Ceiling(x) == k
  {}

  /** At k steps of 1 / (n - 1) the percentile is the k-th order statistic. */
  lemma PercentileAtRank(values: seq<real>, p: real, k: nat)
    requires values != [] && 0.0 <= p <= 1.0 && p * (|values| - 1) as real == k as real
    ensures k < |values| == |Sort(values, RealLeq)| && Percentile(values, p) == Sort(values, RealLeq)[k]
    ensures IsOrderStatistic(values, k, Percentile(values, p))
  {
    var ordered := Sort(values, RealLeq);
    RealOrder();
    SortSorts(values, RealLeq);
    SortPermutes(values, RealLeq);
    SortedLength(values);
    PositionInRange(|values|, p);
    WholeFloor(Position(|values|, p), k);
    SortedStatistic(ordered, k);
    StatisticPermuted(ordered, values, k, ordered[k]);
  }

  lemma AllCounted(p: real -> bool, s: seq<real>)
    requires Count(p, s) >= |s|
    ensures forall x :: x in s ==> p(x)
  {
    forall x | x in s ensures p(x) {
      var i :| 0 <= i < |s| && s[i] == x;
      CountSplit(p, s, i);
      CountBound(p, Without(s, i));
    }
  }

  lemma {:induction false} CountBound(p: real -> bool, s: seq<real>)
    ensures Count(p, s) <= |s|
  {
    if s != [] {
      CountBound(p, s[..|s| - 1]);
    }
  }

  lemma StatisticLeast(values: seq<real>, x: real)
    requires IsOrderStatistic(values, 0, x)
    ensures forall y :: y in values ==> x <= y
  {
    AllCounted(AtLeast(x), values);
    forall y | y in values ensures x <= y {
      assert AtLeast(x)(y);
    }
  }

  lemma StatisticGreatest(values: seq<real>, x: real)
    requires values != [] && IsOrderStatistic(values, |values| - 1, x)
    ensures forall y :: y in values ==> y <= x
  {
    AllCounted(AtMost(x), values);
    forall y | y in values ensures y <= x {
      assert AtMost(x)(y);
    }
  }

  lemma PercentileAtZero(values: seq<real>, p: real)
    requires values != [] && p == 0.0
    ensures IsOrderStatistic(values, 0, Percentile(values, p))
  {
    assert p * (|values| - 1) as real == 0 as real;
    PercentileAtRank(values, p, 0);
  }

  lemma PercentileAtOne(values: seq<real>, p: real)
    requires values != [] && p == 1.0
    ensures IsOrderStatistic(values, |values| - 1, Percentile(values, p))
  {
    assert p * (|values| - 1) as real == (|values| - 1) as real;
    PercentileAtRank(values, p, |values| - 1);
  }

  /** The percentiles at 0 and 1 are the least and the greatest value. */
  lemma PercentileExtremes(values: seq<real>, lo: real, hi: real)
    requires values != [] && lo == Percentile(values, 0.0) && hi == Percentile(values, 1.0)
    ensures lo in values && hi in values && forall x :: x in values ==> lo <= x <= hi
  {
    PercentileAtZero(values, 0.0);
    PercentileAtOne(values, 1.0);
    StatisticLeast(values, lo);
    StatisticGreatest(values, hi);
  }

  lemma SplitFloor(k: nat, t: real)
    requires 0.0 < t < 1.0
    ensures (k as real + t).Floor == k && Ceiling(k as real + t) == k + 1
  {
    assert -(k as real + t) == (-(k as int) - 1) as real + (1.0 - t);
  }

  /** The point at t on the way from a to b. */
  function Mix(a: real, b: real, t: real): real {
    (1.0 - t) * a + t * b
  }

  /** A value between two places of a sorted list. */
  lemma InterpolatedBetween(ordered: seq<real>, x: real, k: nat, t: real)
    requires k + 1 < |ordered| && 0.0 < t < 1.0 && x == k as real + t && Ceiling(x) < |ordered|
    ensures Interpolated(ordered, x) == Mix(ordered[k], ordered[k + 1], t)
  {
    SplitFloor(k, t);
    Mixed(ordered[k], ordered[k + 1], t);
  }

  lemma PercentileIs(values: seq<real>, p: real, x: real)
    requires values != [] && 0.0 <= p <= 1.0 && x == p * (|values| - 1) as real
    ensures 0.0 <= x && Ceiling(x) < |values| == |Sort(values, RealLeq)|
    ensures Percentile(values, p) == Interpolated(Sort(values, RealLeq), x)
  {
    SortedLength(values);
    PositionInRange(|values|, p);
  }

  /** The same at both ends of the segment. */
  lemma InterpolatedAffine(ordered: seq<real>, x: real, k: nat, t: real)
    requires k + 1 < |ordered| && 0.0 <= t <= 1.0 && x == k as real + t && Ceiling(x) < |ordered|
    ensures Interpolated(ordered, x) == Mix(ordered[k], ordered[k + 1], t)
  {
    if t == 0.0 {
      WholeFloor(x, k);
    } else if t == 1.0 {
      WholeFloor(x, k + 1);
    } else {
      InterpolatedBetween(ordered, x, k, t);
    }
  }

  /** Between neighbouring steps the percentile is affine in the probability. */
  lemma PercentileAffine(values: seq<real>, p: real, k: nat, t: real, x: real)
    requires k + 1 < |values| && 0.0 <= t <= 1.0 && 0.0 <= p <= 1.0
    requires p * (|values| - 1) as real == x && x == k as real + t
    ensures |Sort(values, RealLeq)| == |values|
    ensures Percentile(values, p) == Mix(Sort(values, RealLeq)[k], Sort(values, RealLeq)[k + 1], t)
  {
    PercentileIs(values, p, x);
    InterpolatedAffine(Sort(values, RealLeq), x, k, t);
  }

  lemma Mixed(a: real, b: real, t: real)
    ensures a + (b - a) * t == Mix(a, b, t)
  {}

  // --- Intervals ----------------------------------------------------------------------------

  function Interval(draws: seq<real>, confidence: real): (real, real)
    requires draws != [] && 0.0 < confidence < 1.0
  {
    var alpha := (1.0 - confidence) / 2.0;
    (Percentile(draws, alpha), Percentile(draws, 1.0 - alpha))
  }

  /** The interval ends are in order for every confidence in (0, 1), and both lie in the hull of the draws. */
  lemma IntervalOrdered(draws: seq<real>, confidence: real, lo: real, hi: real)
    requires draws != [] && 0.0 < confidence < 1.0 && Bounded(draws, lo, hi)
    ensures lo <= Interval(draws, confidence).0 <= Interval(draws, confidence).1 <= hi
  {
    var alpha := (1.0 - confidence) / 2.0;
    PercentileBetween(draws, alpha, lo, hi);
    PercentileBetween(draws, 1.0 - alpha, lo, hi);
    PercentileMonotone(draws, alpha, 1.0 - alpha);
  }

  /** Both ends leave a tail of the same probability: half of what the confidence leaves. */
  lemma IntervalTails(draws: seq<real>, confidence: real, p: real, q: real)
    requires draws != [] && 0.0 < confidence < 1.0 && 2.0 * p == 1.0 - confidence && 2.0 * (1.0 - q) == 1.0 - confidence
    ensures Interval(draws, confidence) == (Percentile(draws, p), Percentile(draws, q))
  {}

  /** The probabilities of the two ends and their positions among m + 1 draws. */
  lemma TailRanks(c: real, m: real, k: real) returns (p: real, q: real)
    requires 0.0 < c < 1.0 && (1.0 - c) * m == 2.0 * k
    ensures 0.0 <= p <= 1.0 && 0.0 <= q <= 1.0 && 2.0 * p == 1.0 - c && 2.0 * (1.0 - q) == 1.0 - c
    ensures p * m == k && q * m == m - k
  {
    p := (1.0 - c) / 2.0;
    q := 1.0 - p;
    assert q * m == m - p * m;
  }

  /** Where the confidence leaves k draws on each side, the ends are the k-th draws from below and from above. */
  lemma IntervalAtDraws(draws: seq<real>, confidence: real, k: nat)
    requires draws != [] && 0.0 < confidence < 1.0 && (1.0 - confidence) * (|draws| - 1) as real == 2.0 * k as real
    ensures k < |draws| && IsOrderStatistic(draws, k, Interval(draws, confidence).0)
    ensures IsOrderStatistic(draws, |draws| - 1 - k, Interval(draws, confidence).1)
  {
    var p, q := TailRanks(confidence, (|draws| - 1) as real, k as real);
    IntervalTails(draws, confidence, p, q);
    PercentileAtRank(draws, p, k);
    UpperAtRank(draws, q, |draws| - 1 - k, k);
  }

  lemma UpperAtRank(draws: seq<real>, q: real, j: nat, k: nat)
    requires draws != [] && 0.0 <= q <= 1.0 && j + k == |draws| - 1
    requires q * (|draws| - 1) as real == (|draws| - 1) as real - k as real
    ensures IsOrderStatistic(draws, j, Percentile(draws, q))
  {
    PercentileAtRank(draws, q, j);
  }

  function Negated(values: seq<real>): (r: seq<real>)
    ensures |r| == |values| && forall i :: 0 <= i < |values| ==> r[i] == -values[i]
  {
    seq(|values|, i requires 0 <= i < |values| => -values[i])
  }

  function Backwards(values: seq<real>): (r: seq<real>)
    ensures |r| == |values| && forall i :: 0 <= i < |values| ==> r[i] == values[|values| - 1 - i]
  {
    seq(|values|, i requires 0 <= i < |values| => values[|values| - 1 - i])
  }

  lemma {:induction false} BackwardsMultiset(values: seq<real>)
    ensures multiset(Backwards(values)) == multiset(values)
  {
    if values != [] {
      var n := |values| - 1;
      BackwardsMultiset(values[..n]);
      assert Backwards(values) == [values[n]] + Backwards(values[..n]);
      assert values == values[..n] + [values[n]];
    }
  }

  lemma NegatedMultiset(a: seq<real>, b: seq<real>)
    requires multiset(a) == multiset(b)
    ensures multiset(Negated(a)) == multiset(Negated(b))
  {
    MapMultiset((x: real) => -x, a, b);
    assert Map((x: real) => -x, a) == Negated(a) && Map((x: real) => -x, b) == Negated(b);
  }

  lemma BackwardsSorted(ordered: seq<real>)
    requires Sorted(ordered, RealLeq)
    ensures Sorted(Negated(Backwards(ordered)), RealLeq)
  {
    var b := Negated(Backwards(ordered));
    forall i, j | 0 <= i < j < |b| ensures RealLeq(b[i], b[j]) {
      Entries(ordered, |ordered| - 1 - j, |ordered| - 1 - i);
    }
  }

  /** The negated sample, sorted, is the sorted sample read backwards and negated. */
  lemma SortNegated(values: seq<real>)
    ensures Sort(Negated(values), RealLeq) == Negated(Backwards(Sort(values, RealLeq)))
  {
    var ordered := Sort(values, RealLeq);
    RealOrder();
    SortSorts(values, RealLeq);
    SortPermutes(values, RealLeq);
    BackwardsMultiset(ordered);
    NegatedMultiset(Backwards(ordered), values);
    BackwardsSorted(ordered);
    SortedIs(Negated(values), Negated(Backwards(ordered)));
  }

  /** A sorted list with the same multiset is what sorting gives. */
  lemma SortedIs(values: seq<real>, ordered: seq<real>)
    requires Sorted(ordered, RealLeq) && multiset(ordered) == multiset(values)
    ensures Sort(values, RealLeq) == ordered
  {
    RealOrder();
    SortSorts(values, RealLeq);
    SortPermutes(values, RealLeq);
    SortedUnique(Sort(values, RealLeq), ordered, RealLeq);
  }

  lemma MirroredPosition(n: nat, p: real)
    requires n > 0
    ensures Position(n, 1.0 - p) == (n - 1) as real - Position(n, p)
  {
    assert (1.0 - p) * (n - 1) as real == (n - 1) as real - p * (n - 1) as real;
  }

  lemma MirroredFloor(m: int, x: real)
    ensures (m as real - x).Floor == m - Ceiling(x) && Ceiling(m as real - x) == m - x.Floor
  {
    assert (m as real - x).Floor == m + (-x).Floor;
    assert (-(m as real - x)).Floor == x.Floor - m;
  }

  /** The percentile of the mirrored sample at p is the mirrored percentile at 1 - p. */
  lemma PercentileMirrored(values: seq<real>, p: real)
    requires values != [] && 0.0 <= p <= 1.0
    ensures Percentile(Negated(values), p) == -Percentile(values, 1.0 - p)
  {
    var n, ordered := |values|, Sort(values, RealLeq);
    SortedLength(values);
    SortedLength(Negated(values));
    SortNegated(values);
    PositionInRange(n, p);
    PositionInRange(n, 1.0 - p);
    MirroredPosition(n, p);
    MirroredFloor(n - 1, Position(n, p));
    InterpolatedMirrored(ordered, Position(n, p));
  }

  lemma InterpolatedMirrored(ordered: seq<real>, x: real)
    requires ordered != [] && 0.0 <= x <= (|ordered| - 1) as real && Ceiling(x) < |ordered|
    requires Ceiling((|ordered| - 1) as real - x) == |ordered| - 1 - x.Floor
    requires ((|ordered| - 1) as real - x).Floor == |ordered| - 1 - Ceiling(x)
    ensures Ceiling((|ordered| - 1) as real - x) < |ordered|
    ensures Interpolated(Negated(Backwards(ordered)), x) == -Interpolated(ordered, (|ordered| - 1) as real - x)
  {
    var m, lower, upper := |ordered| - 1, x.Floor, Ceiling(x);
    if lower != upper {
      assert upper == lower + 1;
      var t := x - lower as real;
      Mixed(-ordered[m - lower], -ordered[m - upper], t);
      Mixed(ordered[m - upper], ordered[m - lower], 1.0 - t);
      Opposite(ordered[m - lower], ordered[m - upper], t);
    }
  }

  lemma Opposite(a: real, b: real, t: real)
    ensures (1.0 - t) * -a + t * -b == -((1.0 - (1.0 - t)) * b + (1.0 - t) * a)
  {}

  /** Mirrored draws have the mirrored interval. */
  lemma IntervalMirrored(draws: seq<real>, confidence: real)
    requires draws != [] && 0.0 < confidence < 1.0
    ensures Interval(Negated(draws), confidence) == (-Interval(draws, confidence).1, -Interval(draws, confidence).0)
  {
    var p, q := Tails(confidence);
    IntervalTails(draws, confidence, p, q);
    IntervalTails(Negated(draws), confidence, p, q);
    MirroredTails(draws, p, q);
  }

  lemma MirroredTails(draws: seq<real>, p: real, q: real)
    requires draws != [] && 0.0 <= p <= 1.0 && q == 1.0 - p && p == 1.0 - q
    ensures Percentile(Negated(draws), p) == -Percentile(draws, q)
    ensures Percentile(Negated(draws), q) == -Percentile(draws, p)
  {
    PercentileMirrored(draws, p);
    PercentileMirrored(draws, q);
  }

  lemma Tails(c: real) returns (p: real, q: real)
    requires 0.0 < c < 1.0
    ensures 0.0 <= p <= 1.0 && q == 1.0 - p && p == 1.0 - q && 2.0 * p == 1.0 - c && 2.0 * (1.0 - q) == 1.0 - c
  {
    p := (1.0 - c) / 2.0;
    q := 1.0 - p;
  }

  /** Five draws at a confidence of 95 percent. */
  lemma FiveDraws(five: seq<real>)
    requires five == [0.0, 0.25, 0.5, 0.75, 1.0]
    ensures Interval(five, 0.95) == (0.025, 0.975)
  {
    SortedIs(five, five);
    IntervalTails(five, 0.95, 0.025, 0.975);
    FivePercentiles(five);
  }

  lemma FivePercentiles(five: seq<real>)
    requires |five| == 5 && Sort(five, RealLeq) == five
    requires five[0] == 0.0 && five[1] == 0.25 && five[3] == 0.75 && five[4] == 1.0
    ensures Percentile(five, 0.025) == 0.025 && Percentile(five, 0.975) == 0.975
  {
    PercentileAffine(five, 0.025, 0, 0.1, 0.1);
    PercentileAffine(five, 0.975, 3, 0.9, 3.9);
  }
}
