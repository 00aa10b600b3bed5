/** Counting clock readings inside a closed interval. */
module Counting {

  function Repeat<T>(x: T, n: nat): seq<T> { if n == 0 then [] else Repeat(x, n - 1) + [x] }

  function CountIn(times: seq<nat>, lo: nat, hi: nat): (n: nat)
    ensures n <= |times|
  {
    if times == [] then 0
    else CountIn(times[..|times| - 1], lo, hi) + if lo <= times[|times| - 1] <= hi then 1 else 0
  }

  lemma {:induction false} CountConcat(a: seq<nat>, b: seq<nat>, lo: nat, hi: nat)
    ensures CountIn(a + b, lo, hi) == CountIn(a, lo, hi) + CountIn(b, lo, hi)
  {
    if b == [] {
      assert a + b == a;
    } else {
      assert (a + b)[..|a + b| - 1] == a + b[..|b| - 1];
      CountConcat(a, b[..|b| - 1], lo, hi);
    }
  }

  lemma {:induction false} CountNone(a: seq<nat>, lo: nat, hi: nat)
    requires forall i | 0 <= i < |a| :: a[i] < lo || hi < a[i]
    ensures CountIn(a, lo, hi) == 0
  {
    if a != [] {
      CountNone(a[..|a| - 1], lo, hi);
    }
  }

  lemma {:induction false} CountAll(a: seq<nat>, lo: nat, hi: nat)
    requires forall i | 0 <= i < |a| :: lo <= a[i] <= hi
    ensures CountIn(a, lo, hi) == |a|
  {
    if a != [] {
      CountAll(a[..|a| - 1], lo, hi);
    }
  }

  lemma {:induction false} CountGrows(a: seq<nat>, lo: nat, hi: nat, hi': nat)
    requires hi <= hi'
    ensures CountIn(a, lo, hi) <= CountIn(a, lo, hi')
  {
    if a != [] {
      CountGrows(a[..|a| - 1], lo, hi, hi');
    }
  }

  lemma {:induction false} CountWidens(a: seq<nat>, lo: nat, lo': nat, hi: nat)
    requires lo' <= lo
    ensures CountIn(a, lo, hi) <= CountIn(a, lo', hi)
  {
    if a != [] {
      CountWidens(a[..|a| - 1], lo, lo', hi);
    }
  }

  lemma RepeatOnceMore<T>(xs: seq<T>, x: T, n: nat)
    requires n > 0
    ensures xs + Repeat(x, n) == xs + Repeat(x, n - 1) + [x]
  {
  }

  lemma {:induction false} RepeatIsConstant<T>(x: T, n: nat)
    ensures |Repeat(x, n)| == n && forall i | 0 <= i < n :: Repeat(x, n)[i] == x
  {
    if n > 0 {
      RepeatIsConstant(x, n - 1);
    }
  }
}
