/** Rolling mean and variance over the latest samples, kept by running sums. */
module RollingStats {
  import opened Collections
  import opened RealFacts

  function SumOfSquares(xs: seq<real>): real {
    if xs == [] then 0.0 else SumOfSquares(xs[..|xs| - 1]) + xs[|xs| - 1] * xs[|xs| - 1]
  }

  /** Sum of squared distances from `m`. */
  function Deviation(xs: seq<real>, m: real): real {
    if xs == [] then 0.0
    else Deviation(xs[..|xs| - 1], m) + (xs[|xs| - 1] - m) * (xs[|xs| - 1] - m)
  }

  function Mean(xs: seq<real>): real { if xs == [] then 0.0 else Sum(xs) / |xs| as real }

  /** Mean squared distance from the mean. */
  function MeanSquaredDeviation(xs: seq<real>): real {
    if xs == [] then 0.0 else Deviation(xs, Mean(xs)) / |xs| as real
  }

  /** The latest samples that fit; a size of zero still holds one. */
  function Latest<T>(xs: seq<T>, size: nat): seq<T> { LastUpTo(xs, if size == 0 then 1 else size) }

  lemma {:induction false} SumsFromFront(x: real, xs: seq<real>)
    ensures Sum([x] + xs) == x + Sum(xs)
    ensures SumOfSquares([x] + xs) == x * x + SumOfSquares(xs)
  {
    if xs == [] {
      assert [x] + xs == [x] && [x][..0] == [];
      assert Sum([x]) == Sum([x][..0]) + x;
      assert SumOfSquares([x]) == SumOfSquares([x][..0]) + x * x;
    } else {
      assert ([x] + xs)[..|xs|] == [x] + xs[..|xs| - 1];
      SumsFromFront(x, xs[..|xs| - 1]);
    }
  }

  lemma SumsSnoc(xs: seq<real>, x: real)
    ensures Sum(xs + [x]) == Sum(xs) + x
    ensures SumOfSquares(xs + [x]) == SumOfSquares(xs) + x * x
  {
    assert (xs + [x])[..|xs|] == xs;
  }

  lemma LatestSnoc<T>(xs: seq<T>, size: nat, x: T)
    ensures var kept := Latest(xs, size);
            Latest(xs + [x], size) == (if |kept| >= size && kept != [] then kept[1..] else kept) + [x]
    ensures |Latest(xs, size)| >= size && Latest(xs, size) != [] <==> |xs| >= size && xs != []
  {
  }

  lemma SquareNonNegative(x: real)
    ensures x * x >= 0.0
  {
    if x >= 0.0 {
      ProductNonNegative(x, x);
    } else {
      ProductNonNegative(-x, -x);
      assert (-x) * (-x) == x * x;
    }
  }

  lemma {:induction false} DeviationNonNegative(xs: seq<real>, m: real)
    ensures Deviation(xs, m) >= 0.0
  {
    if xs != [] {
      DeviationNonNegative(xs[..|xs| - 1], m);
      SquareNonNegative(xs[|xs| - 1] - m);
    }
  }

  /** Sum of squared distances from `m`, multiplied out. */
  function Expanded(q: real, s: real, n: real, m: real): real { q - 2.0 * m * s + n * (m * m) }

  lemma ExpandOneMore(q: real, s: real, n: real, x: real, m: real)
    ensures Expanded(q, s, n, m) + (x - m) * (x - m) == Expanded(q + x * x, s + x, n + 1.0, m)
  {
    assert (x - m) * (x - m) == x * x - 2.0 * m * x + m * m;
    assert 2.0 * m * (s + x) == 2.0 * m * s + 2.0 * m * x;
    assert (n + 1.0) * (m * m) == n * (m * m) + m * m;
  }

  lemma {:induction false} DeviationExpanded(xs: seq<real>, m: real)
    ensures Deviation(xs, m) == Expanded(SumOfSquares(xs), Sum(xs), |xs| as real, m)
  {
    if xs != [] {
      var front, x := xs[..|xs| - 1], xs[|xs| - 1];
      DeviationExpanded(front, m);
      ExpandOneMore(SumOfSquares(front), Sum(front), |front| as real, x, m);
      assert |front| as real + 1.0 == |xs| as real;
    }
  }

  function Square(x: real): real { x * x }

  function OnePassVariance(sum: real, sumSq: real, n: nat): real
    requires n > 0
  {
    sumSq / n as real - Square(sum / n as real)
  }

  lemma OnePassAlgebra(s: real, q: real, n: real, m: real)
    requires n > 0.0 && m * n == s
    ensures Expanded(q, s, n, m) / n == q / n - Square(m)
  {
    var v, d := q / n, Expanded(q, s, n, m);
    assert v * n == q;
    assert n * (m * m) == m * s by {
      assert n * (m * m) == (m * n) * m;
    }
    assert d == (v - m * m) * n by {
      assert (v - m * m) * n == v * n - n * (m * m);
    }
    assert d / n == v - m * m;
  }

  lemma DeviationAt(xs: seq<real>, n: real, m: real)
    requires n > 0.0 && n == |xs| as real && m * n == Sum(xs)
    ensures Deviation(xs, m) / n == SumOfSquares(xs) / n - Square(m)
    ensures Deviation(xs, m) / n >= 0.0
  {
    DeviationExpanded(xs, m);
    OnePassAlgebra(Sum(xs), SumOfSquares(xs), n, m);
    DeviationNonNegative(xs, m);
    QuotientAtLeast(Deviation(xs, m), n, 0.0);
  }

  lemma MeanTimesCount(xs: seq<real>)
    requires xs != []
    ensures Mean(xs) * |xs| as real == Sum(xs)
  {
  }

  /** The one-pass formula is the mean squared deviation, so it is never negative. */
  lemma VarianceIsMeanSquaredDeviation(xs: seq<real>)
    requires xs != []
    ensures OnePassVariance(Sum(xs), SumOfSquares(xs), |xs|) == MeanSquaredDeviation(xs)
    ensures MeanSquaredDeviation(xs) >= 0.0
  {
    MeanTimesCount(xs);
    DeviationAt(xs, |xs| as real, Mean(xs));
  }

  lemma OneSampleHasNoDeviation(x: real)
    ensures MeanSquaredDeviation([x]) == 0.0
  {
    assert [x][..0] == [];
    assert Sum([x]) == Sum([x][..0]) + x == x;
    assert Mean([x]) == x;
    assert Deviation([x], x) == Deviation([x][..0], x) + (x - x) * (x - x);
  }

  class Rolling {
    const maxSize: nat
    var values: seq<real>
    var timestamps: seq<nat>
    var sum: real
    var sumSq: real
    ghost var samples: seq<real>  // every value so far
    ghost var stamps: seq<nat>  // every timestamp so far

    /** The buffers hold the latest samples and the sums are theirs. */
    ghost predicate Valid()
      reads this
    {
      && |samples| == |stamps|
      && values == Latest(samples, maxSize)
      && timestamps == Latest(stamps, maxSize)
      && sum == Sum(values)
      && sumSq == SumOfSquares(values)
    }

    constructor (maxSize: nat)
      ensures Valid() && this.maxSize == maxSize && samples == [] && stamps == []
    {
      this.maxSize := maxSize;
      values, timestamps, sum, sumSq, samples, stamps := [], [], 0.0, 0.0, [], [];
    }

    method Add(value: real, timestamp: nat)
      requires Valid()
      modifies this
      ensures Valid() && samples == old(samples) + [value] && stamps == old(stamps) + [timestamp]
    {
      LatestSnoc(samples, maxSize, value);
      LatestSnoc(stamps, maxSize, timestamp);
      if |values| >= maxSize && values != [] {
        DropOldest();
      }
      SumsSnoc(values, value);
      values := values + [value];
      timestamps := timestamps + [timestamp];
      sum := sum + value;
      sumSq := sumSq + value * value;
      samples, stamps := samples + [value], stamps + [timestamp];
    }

    method DropOldest()
      requires values != [] && timestamps != [] && sum == Sum(values) && sumSq == SumOfSquares(values)
      modifies this`values, this`timestamps, this`sum, this`sumSq
      ensures values == old(values)[1..] && timestamps == old(timestamps)[1..]
      ensures sum == Sum(values) && sumSq == SumOfSquares(values)
    {
      var oldest := values[0];
      SumsFromFront(oldest, values[1..]);
      assert values == [oldest] + values[1..];
      values := values[1..];
      timestamps := timestamps[1..];
      sum := sum - oldest;
      sumSq := sumSq - oldest * oldest;
    }

    method GetMean() returns (mean: real)
      requires Valid()
      ensures mean == Mean(Latest(samples, maxSize))
    {
      mean := if values == [] then 0.0 else sum / |values| as real;
    }

    method Variance() returns (variance: real)
      requires Valid()
      ensures variance == MeanSquaredDeviation(Latest(samples, maxSize))
      ensures variance >= 0.0
    {
      if |values| < 2 {
        if |values| == 1 {
          OneSampleHasNoDeviation(values[0]);
          assert values == [values[0]];
        }
        return 0.0;
      }
      VarianceIsMeanSquaredDeviation(values);
      variance := OnePassVariance(sum, sumSq, |values|);
    }
  }
}
