/** Powers, quotients and products of whole numbers. */
module Arithmetic {
  function Power(b: nat, e: nat): (r: nat)
    ensures b >= 1 ==> r >= 1
  {
    if e == 0 then 1 else b * Power(b, e - 1)
  }

  lemma {:induction false} PowerGrows(b: nat, m: nat, n: nat)
    requires b >= 1 && m <= n
    ensures Power(b, m) <= Power(b, n)
    decreases n
  {
    if m < n {
      PowerGrows(b, m, n - 1);
      Grows(1, b, Power(b, n - 1));
    }
  }

  lemma Regrouped(a: int, b: int, c: int)
    ensures (a * b) * c == a * (b * c)
  {}

  lemma Grows(i: int, j: int, g: int)
    requires i <= j && g >= 0
    ensures i * g <= j * g
  {
    assert (j - i) * g >= 0;
  }

  /** A number is its quotient and remainder, and no other pair below the divisor. */
  lemma QuotientIs(n: nat, q: int, w: nat, r: nat)
    requires r < w && n == q * w + r
    ensures n / w == q
  {
    SameQuotient(n / w, q, w, n % w, r);
  }

  lemma SameQuotient(p: int, q: int, w: int, r: int, s: int)
    requires 0 <= r < w && 0 <= s < w && p * w + r == q * w + s
    ensures p == q
  {
    if p < q {
      Grows(p + 1, q, w);
      assert false;
    }
    if q < p {
      Grows(q + 1, p, w);
      assert false;
    }
  }

  /** Dividing twice is dividing by the product. */
  lemma DivTwice(n: nat, a: nat, b: nat)
    requires a > 0 && b > 0
    ensures a * b > 0 && n / a / b == n / (a * b)
  {
    var m := n / a;
    var q, r, t := m / b, m % b, n % a;
    Remainders(a, b, r, t);
    Expanded(a, b, q, r, t);
    QuotientIs(n, q, a * b, a * r + t);
  }

  lemma Remainders(a: nat, b: nat, r: nat, t: nat)
    requires r < b && t < a
    ensures 0 <= a * r + t < a * b
  {
    Grows(r + 1, b, a);
    assert (r + 1) * a == a * r + a;
    assert b * a == a * b && a * r >= 0;
  }

  lemma Expanded(a: nat, b: nat, q: nat, r: nat, t: nat)
    ensures (q * b + r) * a + t == q * (a * b) + (a * r + t)
  {
    assert (q * b + r) * a == q * b * a + r * a;
    Regrouped(q, b, a);
  }
}
