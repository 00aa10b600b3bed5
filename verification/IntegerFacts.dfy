/** Subtraction on machine integers, and facts about quotients that the solver does not find unaided. */
module IntegerFacts {

  function SaturatingSub(a: nat, b: nat): nat { if a < b then 0 else a - b }

  const TWO_64: nat := 0x1_0000_0000_0000_0000

  /** Unsigned 64-bit subtraction, with wrap-around. */
  function WrappingSub(a: nat, b: nat): (d: int)
    ensures a < TWO_64 && b < TWO_64 ==> 0 <= d < TWO_64
  {
    if a >= b then a - b else a - b + TWO_64
  }

  /** Adding back what was subtracted gives the first number again, modulo 2^64. */
  lemma WrappingIsModular(a: nat, b: nat)
    requires a < TWO_64 && b < TWO_64
    ensures (WrappingSub(a, b) + b) % TWO_64 == a
  {
  }

  lemma ProductAtLeast(d: int, n: nat)
    requires d >= 1
    ensures d * n >= n
  {
    assert d * n == (d - 1) * n + n;
  }

  lemma QuotientUnique(x: nat, n: nat, q: nat, r: nat)
    requires n > 0 && r < n && x == q * n + r
    ensures x / n == q && x % n == r
  {
    var q', r' := x / n, x % n;
    assert (q - q') * n == r' - r by {
      assert x == q' * n + r';
    }
    if q > q' {
      ProductAtLeast(q - q', n);
    } else if q' > q {
      ProductAtLeast(q' - q, n);
    }
  }

  /** Counting one further either completes a group of `n` or stays inside it. */
  lemma QuotientStep(c: nat, n: nat)
    requires n > 0
    ensures c % n == n - 1 ==> (c + 1) / n == c / n + 1 && (c + 1) % n == 0
    ensures c % n != n - 1 ==> (c + 1) / n == c / n && (c + 1) % n == c % n + 1
  {
    var q, r := c / n, c % n;
    assert c == q * n + r;
    if r + 1 == n {
      assert c + 1 == (q + 1) * n;
      QuotientUnique(c + 1, n, q + 1, 0);
    } else {
      QuotientUnique(c + 1, n, q, r + 1);
    }
  }

  lemma SumFromParts(a: nat, q: nat, r: nat, b: nat, q': nat, r': nat, n: nat)
    requires a == q * n + r && r < n && b == q' * n + r' && r' < n
    ensures (a + b) / n == q + q' || (a + b) / n == q + q' + 1
  {
    assert q * n + q' * n == (q + q') * n;
    if r + r' < n {
      QuotientUnique(a + b, n, q + q', r + r');
    } else {
      assert (q + q') * n + n == (q + q' + 1) * n;
      QuotientUnique(a + b, n, q + q' + 1, r + r' - n);
    }
  }

  /** A quotient of a sum is the sum of the quotients, or one more. */
  lemma QuotientOfSum(a: nat, b: nat, n: nat)
    requires n > 0
    ensures (a + b) / n == a / n + b / n || (a + b) / n == a / n + b / n + 1
  {
    var q, r, q', r' := a / n, a % n, b / n, b % n;
    SumFromParts(a, q, r, b, q', r', n);
  }
}
