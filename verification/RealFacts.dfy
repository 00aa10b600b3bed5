/** Sums, minima and maxima of reals, and facts about products and quotients that the solver does not find unaided. */
module RealFacts {

  function Sum(xs: seq<real>): real { if xs == [] then 0.0 else Sum(xs[..|xs| - 1]) + xs[|xs| - 1] }

  function Min(x: real, y: real): real { if x <= y then x else y }

  function Max(x: real, y: real): real { if x >= y then x else y }

  lemma QuotientAtLeast(x: real, n: real, c: real)
    requires n > 0.0
    ensures x / n >= c <==> x >= c * n
  {
    var r := x / n;
    assert r * n == x;
    if r >= c {
      ProductNonNegative(r - c, n);
    } else {
      ProductPositive(c - r, n);
    }
  }

  lemma ProductNonNegative(x: real, y: real)
    requires x >= 0.0 && y >= 0.0
    ensures x * y >= 0.0
  {
  }

  lemma ProductPositive(x: real, y: real)
    requires x > 0.0 && y > 0.0
    ensures x * y > 0.0
  {
  }

  lemma QuotientMonotone(x: real, y: real, n: real)
    requires n > 0.0 && x <= y
    ensures x / n <= y / n
  {
    QuotientAtLeast(y, n, x / n);
  }

  lemma ProductMonotone(b: real, x: real, y: real)
    requires b >= 0.0 && x <= y
    ensures b * x <= b * y
  {
    ProductNonNegative(b, y - x);
  }

  predicate IsQuotient(r: real, k: nat, n: nat) { r * n as real == k as real }

  lemma RatioTimes(k: nat, n: nat)
    requires n > 0
    ensures IsQuotient(k as real / n as real, k, n)
  {
  }

  /** A count over a larger count lies between 0 and 1, and reaches an end only when the counts do. */
  lemma RatioBounds(k: nat, n: nat)
    requires k <= n && 0 < n
    ensures 0.0 <= k as real / n as real <= 1.0
    ensures k as real / n as real == 1.0 <==> k == n
    ensures k as real / n as real == 0.0 <==> k == 0
  {
    var r := k as real / n as real;
    assert r * n as real == k as real;
  }
}
