/** Sizes of finite sets and maps, and the end of a sequence. */
module Collections {

  /** The last `n` elements, or all of them when there are fewer. */
  function LastUpTo<T>(xs: seq<T>, n: nat): seq<T> { if |xs| <= n then xs else xs[|xs| - n..] }

  /** Dropping the oldest element after adding one keeps the last `n`. */
  lemma LastUpToAfter<T>(xs: seq<T>, x: T, n: nat)
    requires n > 0
    ensures var grown := LastUpTo(xs, n) + [x];
            LastUpTo(xs + [x], n) == if |grown| > n then grown[1..] else grown
  {
  }

  lemma SubsetSize<T>(small: set<T>, large: set<T>)
    requires small <= large
    ensures |small| <= |large|
    ensures |small| == |large| ==> small == large
  {
    assert large == small + (large - small);
  }

  lemma SubmapSize<K, V>(small: map<K, V>, large: map<K, V>)
    requires small.Keys <= large.Keys
    ensures |small| <= |large|
    ensures |small| == |large| ==> small.Keys == large.Keys
  {
    SubsetSize(small.Keys, large.Keys);
  }

  ghost predicate NoRepeats<T>(xs: seq<T>) {
    forall i, j | 0 <= i < j < |xs| :: xs[i] != xs[j]
  }

  lemma NoRepeatsConcat<T>(xs: seq<T>, ys: seq<T>)
    requires NoRepeats(xs) && NoRepeats(ys) && forall x | x in xs :: x !in ys
    ensures NoRepeats(xs + ys)
  {
    forall i, j | 0 <= i < j < |xs + ys| ensures (xs + ys)[i] != (xs + ys)[j] {
      if i < |xs| <= j {
        assert xs[i] in xs && ys[j - |xs|] in ys;
      }
    }
  }

  lemma {:induction false} NoRepeatsSize<T>(xs: seq<T>, s: set<T>)
    requires NoRepeats(xs) && forall x :: x in xs <==> x in s
    ensures |xs| == |s|
  {
    if xs == [] {
      assert s == {};
    } else {
      var front, x := xs[..|xs| - 1], xs[|xs| - 1];
      assert xs == front + [x];
      NoRepeatsSize(front, s - {x});
    }
  }

  /** Every finite set can be listed without repetition. */
  lemma Listing<T>(s: set<T>) returns (xs: seq<T>)
    ensures NoRepeats(xs) && forall x :: x in xs <==> x in s
    decreases s
  {
    if s == {} {
      xs := [];
    } else {
      var x :| x in s;
      var rest := Listing(s - {x});
      NoRepeatsConcat(rest, [x]);
      xs := rest + [x];
    }
  }
}
