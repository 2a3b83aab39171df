/** Small facts about products and quotients that the solver needs by name.

    `Arithmetic` is about natural numbers: products grow with their factors, a factor cancels, and a
    whole part with a proper remainder is the quotient with the remainder. `RealQuotients` is about
    rates: a quotient times its denominator is its numerator, quotients compare as their cross
    products do, and scaling by a count is repeated addition. */
module Arithmetic {

  lemma ProductMonotone(t: nat, a: int, b: int)
    requires a <= b
    ensures t * a <= t * b
  {
  }

  lemma CancelFactor(t: nat, a: int, b: int)
    requires t * a < t * b
    ensures a < b
  {
    if a >= b {
      ProductMonotone(t, b, a);
    }
  }

  lemma QuotientRemainder(n: nat, d: nat)
    requires d > 0
    ensures d * (n / d) + n % d == n
    ensures n % d < d
  {
  }

  /** A whole part and a proper remainder are the quotient and the remainder. */
  lemma DivisionIsUnique(n: nat, d: nat, q: nat, r: nat)
    requires r < d && d * q + r == n
    ensures n / d == q && n % d == r
  {
    QuotientRemainder(n, d);
    var q', r' := n / d, n % d;
    if q' > q {
      ProductMonotone(d, q + 1, q');
    } else if q' < q {
      ProductMonotone(d, q' + 1, q);
    }
  }
}

/** Quotients of reals. */
module RealQuotients {

  lemma QuotientIs(f: real, a: real, b: real)
    requires b != 0.0 && f * b == a
    ensures a / b == f
  {
  }

  lemma QuotientTimes(a: real, b: real)
    requires b != 0.0
    ensures (a / b) * b == a
  {
  }

  lemma SameQuotientSameNumerator(a: real, b: real, d: real)
    requires d != 0.0 && a / d == b / d
    ensures a == b
  {
    QuotientTimes(a, d);
    QuotientTimes(b, d);
  }

  lemma SameQuotientSameDenominator(a: real, d: real, e: real)
    requires a != 0.0 && d != 0.0 && e != 0.0 && a / d == a / e
    ensures d == e
  {
    var q := a / d;
    QuotientTimes(a, d);
    QuotientTimes(a, e);
    assert q * (d - e) == 0.0;
  }

  lemma ProductSign(a: real, b: real)
    requires a >= 0.0 && b >= 0.0
    ensures a * b >= 0.0
  {
  }

  lemma ScaleOrder(a: real, b: real, k: real)
    requires a <= b && k >= 0.0
    ensures a * k <= b * k
  {
    ProductSign(b - a, k);
  }

  lemma PositiveProduct(a: real, b: real)
    requires a > 0.0 && b > 0.0
    ensures a * b > 0.0
  {
  }

  lemma StrictScale(a: real, b: real, k: real)
    requires a < b && k > 0.0
    ensures a * k < b * k
  {
    PositiveProduct(b - a, k);
    assert (b - a) * k == b * k - a * k;
  }

  lemma ScaledAtLeast(q: real, a: real, d: real, m: real)
    requires d > 0.0 && q * d == a
    ensures q >= m <==> a >= m * d
  {
    if q >= m {
      ScaleOrder(m, q, d);
    } else {
      StrictScale(q, m, d);
    }
  }

  lemma QuotientAtLeast(a: real, d: real, m: real)
    requires d > 0.0
    ensures a / d >= m <==> a >= m * d
  {
    QuotientTimes(a, d);
    ScaledAtLeast(a / d, a, d, m);
  }

  lemma QuotientOrder(a: real, b: real, d: real)
    requires d > 0.0
    ensures a / d <= b / d <==> a <= b
  {
    QuotientTimes(b, d);
    QuotientAtLeast(b, d, a / d);
    QuotientTimes(a, d);
  }

  /** `n` times `x`, by repeated addition. */
  function Scaled(x: real, n: nat): real {
    if n == 0 then 0.0 else x + Scaled(x, n - 1)
  }

  lemma {:induction false} ScaledIsProduct(x: real, n: nat)
    ensures Scaled(x, n) == x * n as real
  {
    if n > 0 {
      ScaledIsProduct(x, n - 1);
      assert x * n as real == x + x * (n - 1) as real;
    }
  }

  lemma ScaledOrder(a: real, b: real, n: nat)
    requires n > 0 && Scaled(a, n) <= Scaled(b, n)
    ensures a <= b
  {
    ScaledIsProduct(a, n);
    ScaledIsProduct(b, n);
    ScaledAtLeast(b, b * n as real, n as real, a);
  }

  lemma {:induction false} ScaledMonotone(a: real, b: real, n: nat)
    requires a <= b
    ensures Scaled(a, n) <= Scaled(b, n)
  {
    if n > 0 {
      ScaledMonotone(a, b, n - 1);
    }
  }

  lemma {:induction false} ScaledAdd(x: real, m: nat, n: nat)
    ensures Scaled(x, m + n) == Scaled(x, m) + Scaled(x, n)
  {
    if n > 0 {
      ScaledAdd(x, m, n - 1);
    }
  }
}
