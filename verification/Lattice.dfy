/** The step of the lattice spanned by a list of rationals. */
module Lattice {
  import Arithmetic
  import Sorting

  // --- Greatest common divisors -------------------------------------------------------------

  /** math.gcd */
  function Gcd(a: nat, b: nat): nat
    decreases b
  {
    if b == 0 then a else Gcd(b, a % b)
  }

  ghost predicate Divides(d: int, n: int) {
    exists k: int :: n == k * d
  }

  lemma {:induction false} GcdDivides(a: nat, b: nat)
    ensures Divides(Gcd(a, b), a) && Divides(Gcd(a, b), b)
    decreases b
  {
    if b == 0 {
      assert a == 1 * a && b == 0 * a;
    } else {
      GcdDivides(b, a % b);
      DividesCombined(Gcd(b, a % b), a / b, b, a % b);
    }
  }

  lemma DividesCombined(g: int, q: int, b: int, r: int)
    requires Divides(g, b) && Divides(g, r)
    ensures Divides(g, q * b + r)
  {
    var j :| b == j * g;
    var k :| r == k * g;
    Arithmetic.Regrouped(q, j, g);
    assert q * b + r == (q * j + k) * g;
  }

  /** The gcd is an integer combination of the two numbers. */
  lemma {:induction false} Bezout(a: nat, b: nat) returns (x: int, y: int)
    ensures Gcd(a, b) == x * a + y * b
    decreases b
  {
    if b == 0 {
      x, y := 1, 0;
    } else {
      var u, v := Bezout(b, a % b);
      x, y := v, u - (a / b) * v;
      Recombined(a, b, a / b, a % b, u, v);
    }
  }

  lemma Recombined(a: int, b: int, q: int, r: int, u: int, v: int)
    requires a == q * b + r
    ensures u * b + v * r == v * a + (u - q * v) * b
  {
    assert v * (q * b) == (q * v) * b;
  }

  lemma {:induction false} GcdPositive(a: nat, b: nat)
    ensures Gcd(a, b) == 0 <==> a == 0 && b == 0
    decreases b
  {
    if b > 0 {
      GcdPositive(b, a % b);
    }
  }

  /** math.lcm of positive numbers. */
  function Lcm(a: nat, b: nat): nat
    requires a > 0 && b > 0
  {
    GcdPositive(a, b);
    a / Gcd(a, b) * b
  }

  lemma LcmIsCommon(a: nat, b: nat)
    requires a > 0 && b > 0
    ensures Lcm(a, b) > 0 && Divides(a, Lcm(a, b)) && Divides(b, Lcm(a, b))
  {
    var g := Gcd(a, b);
    GcdPositive(a, b);
    GcdDivides(a, b);
    var j :| a == j * g;
    var k :| b == k * g;
    QuotientOf(a, j, g);
    assert Lcm(a, b) == j * b;
    CrossFactors(a, b, g, j, k);
    PositiveFactor(j, g);
    Arithmetic.Grows(1, j, b);
  }

  lemma CrossFactors(a: int, b: int, g: int, j: int, k: int)
    requires a == j * g && b == k * g
    ensures j * b == k * a
  {
    assert j * (k * g) == k * (j * g);
  }

  lemma PositiveFactor(j: int, g: int)
    requires g > 0 && j * g > 0
    ensures j > 0
  {
    if j <= 0 {
      Arithmetic.Grows(j, 0, g);
      assert false;
    }
  }

  lemma QuotientOf(a: nat, j: int, g: nat)
    requires g > 0 && a == j * g
    ensures a / g == j
  {
    Arithmetic.QuotientIs(a, j, g, 0);
  }

  lemma DividesTrans(a: int, b: int, c: int)
    requires Divides(a, b) && Divides(b, c)
    ensures Divides(a, c)
  {
    var j :| b == j * a;
    var k :| c == k * b;
    assert c == (k * j) * a;
  }

  // --- Rationals ----------------------------------------------------------------------------

  datatype Rational = Rational(num: int, den: int)

  ghost predicate Proper(q: Rational) {
    q.den > 0
  }

  ghost function Value(q: Rational): real
    requires Proper(q)
  {
    q.num as real / q.den as real
  }

  ghost function Steps(k: int, s: real): real {
    k as real * s
  }

  /** x is a whole number of steps of size s. */
  ghost predicate Multiple(x: real, s: real) {
    exists k: int :: x == Steps(k, s)
  }

  lemma MultipleSum(x: real, y: real, s: real, a: int, b: int)
    requires Multiple(x, s) && Multiple(y, s)
    ensures Multiple(a as real * x + b as real * y, s)
  {
    var j: int :| x == Steps(j, s);
    var k: int :| y == Steps(k, s);
    StepsSum(a, j, b, k, s);
  }

  lemma StepsSum(a: int, j: int, b: int, k: int, s: real)
    ensures a as real * Steps(j, s) + b as real * Steps(k, s) == Steps(a * j + b * k, s)
  {
    assert a as real * (j as real * s) == (a * j) as real * s;
    assert b as real * (k as real * s) == (b * k) as real * s;
  }

  /** Over a common denominator a rational is a whole number. */
  lemma Scaled(q: Rational, d: int)
    requires Proper(q) && d > 0 && Divides(q.den, d)
    ensures Value(q) == (q.num * (d / q.den)) as real / d as real
  {
    var k: int :| d == k * q.den;
    PositiveFactor(k, q.den);
    QuotientOf(d, k, q.den);
    Cancel(q.num, q.den, k, d);
  }

  lemma Cancel(n: int, e: int, k: int, d: int)
    requires e > 0 && k > 0 && d == k * e
    ensures n as real / e as real == (n * k) as real / d as real
  {
    var x := n as real / e as real;
    assert x * e as real == n as real;
    assert d as real == k as real * e as real;
    assert x * d as real == k as real * n as real by {
      assert x * (k as real * e as real) == k as real * (x * e as real);
    }
    assert (n * k) as real == k as real * n as real;
    DivideOut(x, d as real, (n * k) as real);
  }

  lemma DivideOut(x: real, d: real, y: real)
    requires d > 0.0 && x * d == y
    ensures x == y / d
  {}

  // --- The step -----------------------------------------------------------------------------

  ghost predicate AllProper(values: seq<Rational>) {
    forall i :: 0 <= i < |values| ==> Proper(values[i])
  }

  ghost predicate AllMultiples(values: seq<Rational>, s: real)
    requires AllProper(values)
  {
    forall i :: 0 <= i < |values| ==> Multiple(Value(values[i]), s)
  }

  /** Every value is a whole number of steps, and the step is a whole number of any other such size. */
  ghost predicate IsStep(values: seq<Rational>, step: real)
    requires AllProper(values)
  {
    AllMultiples(values, step) && forall s: real :: AllMultiples(values, s) ==> Multiple(step, s)
  }

  function Abs(q: Rational): Rational {
    if q.num < 0 then Rational(-q.num, q.den) else q
  }

  /** The absolute values of the values other than zero. */
  function Materialized(values: seq<Rational>): seq<Rational> {
    if values == [] then []
    else
      var last := values[|values| - 1];
      if last.num == 0 then Materialized(values[..|values| - 1]) else Materialized(values[..|values| - 1]) + [Abs(last)]
  }

  lemma MultipleSign(q: Rational, s: real)
    requires Proper(q)
    ensures Multiple(Value(q), s) <==> Multiple(Value(Abs(q)), s)
    ensures q.num == 0 ==> Multiple(Value(q), s)
  {
    if q.num == 0 {
      assert Value(q) == Steps(0, s);
    }
    Negated(Value(q), s);
    Negated(Value(Abs(q)), s);
    if q.num < 0 {
      assert Value(Abs(q)) == -Value(q);
    }
  }

  lemma Negated(x: real, s: real)
    ensures Multiple(x, s) ==> Multiple(-x, s)
  {
    if Multiple(x, s) {
      var k: int :| x == Steps(k, s);
      assert -x == Steps(-k, s);
    }
  }

  lemma AppendMultiples(values: seq<Rational>, q: Rational, s: real)
    requires AllProper(values) && Proper(q)
    ensures AllProper(values + [q])
    ensures AllMultiples(values + [q], s) <==> AllMultiples(values, s) && Multiple(Value(q), s)
  {
    var all := values + [q];
    assert forall i :: 0 <= i < |values| ==> all[i] == values[i];
    assert all[|values|] == q;
  }

  lemma {:induction false} SameMultiples(values: seq<Rational>, s: real)
    requires AllProper(values)
    ensures AllProper(Materialized(values))
            && (forall i :: 0 <= i < |Materialized(values)| ==> Materialized(values)[i].num > 0)
    ensures AllMultiples(Materialized(values), s) <==> AllMultiples(values, s)
  {
    if values != [] {
      var n := |values| - 1;
      var front := values[..n];
      SameMultiples(front, s);
      MultipleSign(values[n], s);
      assert values == front + [values[n]];
      AppendMultiples(front, values[n], s);
      AppendMultiples(Materialized(front), Abs(values[n]), s);
    }
  }

  function Whole(q: Rational, d: int): int
    requires q.den > 0
  {
    q.num * (d / q.den)
  }

  /** A common denominator of the values. */
  method CommonDenominator(values: seq<Rational>) returns (d: int)
    requires AllProper(values)
    ensures d > 0 && forall i :: 0 <= i < |values| ==> Divides(values[i].den, d)
  {
    d := 1;
    for i := 0 to |values|
      invariant d > 0 && forall j :: 0 <= j < i ==> Divides(values[j].den, d)
    {
      LcmIsCommon(d, values[i].den);
      var next := Lcm(d, values[i].den);
      forall j | 0 <= j < i ensures Divides(values[j].den, next) {
        DividesTrans(values[j].den, d, next);
      }
      d := next;
    }
  }

  /** The size g / d is reached from the first n values by whole combinations. */
  ghost predicate Reached(values: seq<Rational>, n: nat, x: real)
    requires AllProper(values) && n <= |values|
  {
    forall s: real :: AllMultiples(values[..n], s) ==> Multiple(x, s)
  }

  lemma GcdReached(values: seq<Rational>, n: nat, g: nat, d: int)
    requires AllProper(values) && n < |values| && values[n].num > 0 && d > 0 && Divides(values[n].den, d)
    requires Reached(values, n, g as real / d as real)
    ensures Whole(values[n], d) >= 0
    ensures Reached(values, n + 1, Gcd(g, Whole(values[n], d)) as real / d as real)
  {
    var k: int :| d == k * values[n].den;
    PositiveFactor(k, values[n].den);
    QuotientOf(d, k, values[n].den);
    var m := Whole(values[n], d);
    Arithmetic.Grows(0, k, values[n].num);
    Scaled(values[n], d);
    var x, y := Bezout(g, m);
    var next, prefix := Gcd(g, m) as real / d as real, values[..n + 1];
    forall s: real | AllMultiples(prefix, s) ensures Multiple(next, s) {
      PrefixMultiples(values, n, s);
      MultipleSum(g as real / d as real, m as real / d as real, s, x, y);
      CombinedQuotient(x, g, y, m, d);
    }
  }

  lemma PrefixMultiples(values: seq<Rational>, n: nat, s: real)
    requires AllProper(values) && n < |values| && AllMultiples(values[..n + 1], s)
    ensures AllMultiples(values[..n], s) && Multiple(Value(values[n]), s)
  {
    var more := values[..n + 1];
    assert more[n] == values[n];
    assert forall i :: 0 <= i < n ==> more[i] == values[..n][i];
  }

  lemma CombinedQuotient(x: int, g: int, y: int, m: int, d: int)
    requires d > 0
    ensures x as real * (g as real / d as real) + y as real * (m as real / d as real)
            == (x * g + y * m) as real / d as real
  {
    var e := d as real;
    assert (x * g) as real == x as real * g as real && (y * m) as real == y as real * m as real;
    DivideOut(x as real * (g as real / e) + y as real * (m as real / e), e, (x * g + y * m) as real);
  }

  /** The gcd of the values over their common denominator. */
  method CommonNumerator(values: seq<Rational>, d: int) returns (g: nat)
    requires AllProper(values) && d > 0
    requires forall i :: 0 <= i < |values| ==> values[i].num > 0 && Divides(values[i].den, d)
    ensures forall i :: 0 <= i < |values| ==> Divides(g, Whole(values[i], d))
    ensures Reached(values, |values|, g as real / d as real)
  {
    g := 0;
    ghost var zero := 0.0 / d as real;
    forall s: real ensures Multiple(zero, s) {
      assert zero == Steps(0, s);
    }
    for i := 0 to |values|
      invariant forall j :: 0 <= j < i ==> Divides(g, Whole(values[j], d))
      invariant Reached(values, i, g as real / d as real)
    {
      GcdReached(values, i, g, d);
      GcdDivides(g, Whole(values[i], d));
      var next := Gcd(g, Whole(values[i], d));
      forall j | 0 <= j < i ensures Divides(next, Whole(values[j], d)) {
        DividesTrans(next, g, Whole(values[j], d));
      }
      g := next;
    }
  }

  /** The step of the lattice of the values; zero when there are none other than zero. */
  method FractionGcd(values: seq<Rational>) returns (step: Rational)
    requires AllProper(values)
    ensures Proper(step) && Value(step) >= 0.0 && IsStep(values, Value(step))
  {
    var materialized := Materialized(values);
    SameMultiples(values, 0.0);
    if materialized == [] {
      step := Rational(0, 1);
      NoStep(values);
      return;
    }
    var d := CommonDenominator(materialized);
    var g := CommonNumerator(materialized, d);
    step := Rational(g, d);
    StepOf(values, materialized, g, d);
  }

  lemma NoStep(values: seq<Rational>)
    requires AllProper(values) && Materialized(values) == []
    ensures IsStep(values, 0.0)
  {
    SameMultiples(values, 0.0);
    forall s: real ensures Multiple(0.0, s) {
      assert 0.0 == Steps(0, s);
    }
  }

  lemma StepOf(values: seq<Rational>, materialized: seq<Rational>, g: nat, d: int)
    requires AllProper(values) && materialized == Materialized(values) && AllProper(materialized) && d > 0
    requires forall i :: 0 <= i < |materialized| ==>
             Divides(materialized[i].den, d) && Divides(g, Whole(materialized[i], d))
    requires Reached(materialized, |materialized|, g as real / d as real)
    ensures IsStep(values, g as real / d as real)
  {
    var x := g as real / d as real;
    assert materialized[..|materialized|] == materialized;
    forall i | 0 <= i < |materialized| ensures Multiple(Value(materialized[i]), x) {
      Scaled(materialized[i], d);
      var k :| Whole(materialized[i], d) == k * g;
      MultipleOf(k, g, d);
    }
    SameMultiples(values, x);
    forall s: real | AllMultiples(values, s) ensures Multiple(x, s) {
      SameMultiples(values, s);
    }
  }

  lemma MultipleOf(k: int, g: int, d: int)
    requires d > 0
    ensures Multiple((k * g) as real / d as real, g as real / d as real)
  {
    CombinedQuotient(k, g, 0, 0, d);
    assert (k * g) as real / d as real == Steps(k, g as real / d as real);
  }

  // --- Differences of a support -------------------------------------------------------------

  /** When the step divides all neighbouring differences of a list it divides the difference of any two entries. */
  lemma {:induction false} DifferencesOnLattice(support: seq<real>, s: real, i: nat, j: nat)
    requires i <= j < |support|
    requires forall k :: 0 <= k < |support| - 1 ==> Multiple(support[k + 1] - support[k], s)
    ensures Multiple(support[j] - support[i], s)
    decreases j
  {
    if i == j {
      assert support[j] - support[i] == Steps(0, s);
    } else {
      DifferencesOnLattice(support, s, i, j - 1);
      assert Multiple(support[j - 1 + 1] - support[j - 1], s);
      MultipleSum(support[j - 1] - support[i], support[j] - support[j - 1], s, 1, 1);
    }
  }

  /** a <= b, for proper rationals. */
  predicate RationalLeq(a: Rational, b: Rational) {
    a.num * b.den <= b.num * a.den
  }

  function Difference(a: Rational, b: Rational): Rational {
    Rational(a.num * b.den - b.num * a.den, a.den * b.den)
  }

  lemma DifferenceValue(a: Rational, b: Rational)
    requires Proper(a) && Proper(b)
    ensures Proper(Difference(a, b)) && Value(Difference(a, b)) == Value(a) - Value(b)
  {
    Arithmetic.Grows(1, a.den, b.den);
    Cancel(a.num, a.den, b.den, a.den * b.den);
    Cancel(b.num, b.den, a.den, a.den * b.den);
    Subtracted(a.num * b.den, b.num * a.den, a.den * b.den);
  }

  lemma Subtracted(x: int, y: int, d: int)
    requires d > 0
    ensures (x - y) as real / d as real == x as real / d as real - y as real / d as real
  {}

  /** sorted(set(values)) */
  function Support(values: seq<Rational>): seq<Rational> {
    Sorting.Sort(Sorting.Elements(values), RationalLeq)
  }

  lemma SupportMembers(values: seq<Rational>)
    ensures forall q :: q in Support(values) <==> q in values
  {
    Sorting.SortPermutes(Sorting.Elements(values), RationalLeq);
    forall q ensures q in Support(values) <==> q in values {
      assert q in multiset(Support(values)) <==> q in multiset(Sorting.Elements(values));
    }
  }

  /** The differences of neighbours. */
  function Gaps(support: seq<Rational>): (r: seq<Rational>)
    ensures |r| == if support == [] then 0 else |support| - 1
  {
    if support == [] then []
    else seq(|support| - 1, i requires 0 <= i < |support| - 1 => Difference(support[i + 1], support[i]))
  }

  /** Every difference of two values is a whole number of steps. */
  ghost predicate SpacedBy(values: seq<Rational>, s: real)
    requires AllProper(values)
  {
    forall p, q :: p in values && q in values ==> Multiple(Value(p) - Value(q), s)
  }

  lemma GapsProper(support: seq<Rational>)
    requires AllProper(support)
    ensures AllProper(Gaps(support))
    ensures forall i :: 0 <= i < |support| - 1 ==> Value(Gaps(support)[i]) == Value(support[i + 1]) - Value(support[i])
  {
    forall i | 0 <= i < |support| - 1
      ensures Proper(Gaps(support)[i]) && Value(Gaps(support)[i]) == Value(support[i + 1]) - Value(support[i])
    {
      DifferenceValue(support[i + 1], support[i]);
    }
  }

  /** The difference of any two entries, in either order. */
  lemma PairOnLattice(values: seq<real>, s: real, i: nat, j: nat)
    requires i < |values| && j < |values|
    requires forall k :: 0 <= k < |values| - 1 ==> Multiple(values[k + 1] - values[k], s)
    ensures Multiple(values[i] - values[j], s)
  {
    if j <= i {
      DifferencesOnLattice(values, s, j, i);
    } else {
      DifferencesOnLattice(values, s, i, j);
      Negated(values[j] - values[i], s);
      assert values[i] - values[j] == -(values[j] - values[i]);
    }
  }

  lemma GapsWhenSpaced(support: seq<Rational>, values: seq<real>, gaps: seq<real>, s: real)
    requires AllProper(support) && |values| == |support| && |gaps| == if values == [] then 0 else |values| - 1
    requires forall i :: 0 <= i < |support| ==> values[i] == Value(support[i])
    requires forall i :: 0 <= i < |gaps| ==> gaps[i] == values[i + 1] - values[i]
    ensures (forall i :: 0 <= i < |gaps| ==> Multiple(gaps[i], s)) <==> SpacedBy(support, s)
  {
    if forall i :: 0 <= i < |gaps| ==> Multiple(gaps[i], s) {
      forall k | 0 <= k < |values| - 1 ensures Multiple(values[k + 1] - values[k], s) {
        assert Multiple(gaps[k], s);
      }
      forall p, q | p in support && q in support ensures Multiple(Value(p) - Value(q), s) {
        var i :| 0 <= i < |support| && support[i] == p;
        var j :| 0 <= j < |support| && support[j] == q;
        PairOnLattice(values, s, i, j);
      }
    }
    if SpacedBy(support, s) {
      forall i | 0 <= i < |gaps| ensures Multiple(gaps[i], s) {
        assert support[i + 1] in support && support[i] in support;
      }
    }
  }

  function ValueOr0(q: Rational): real {
    if q.den > 0 then q.num as real / q.den as real else 0.0
  }

  /** A size divides the differences of neighbours exactly when it divides all differences. */
  lemma GapsSpace(support: seq<Rational>, s: real)
    requires AllProper(support)
    ensures AllProper(Gaps(support)) && (AllMultiples(Gaps(support), s) <==> SpacedBy(support, s))
  {
    GapsProper(support);
    var values, gaps := Sorting.Map(ValueOr0, support), Sorting.Map(ValueOr0, Gaps(support));
    forall i | 0 <= i < |gaps| ensures gaps[i] == Value(Gaps(support)[i]) {
      assert Proper(Gaps(support)[i]);
    }
    GapsWhenSpaced(support, values, gaps, s);
  }

  /**
    The reported lattice step of two lists of areas: every difference of two areas is a whole number of steps, and
    the step is a whole number of any other size with that property.
   */
  method LatticeStep(champion: seq<Rational>, stage3: seq<Rational>) returns (step: Rational)
    requires AllProper(champion + stage3)
    ensures Proper(step) && Value(step) >= 0.0 && SpacedBy(champion + stage3, Value(step))
    ensures forall s: real :: SpacedBy(champion + stage3, s) ==> Multiple(Value(step), s)
  {
    var values := champion + stage3;
    var support := Support(values);
    SupportMembers(values);
    assert forall i :: 0 <= i < |support| ==> support[i] in values;
    GapsProper(support);
    step := FractionGcd(Gaps(support));
    GapsSpace(support, Value(step));
    forall s: real | SpacedBy(values, s) ensures Multiple(Value(step), s) {
      GapsSpace(support, s);
    }
  }
}
