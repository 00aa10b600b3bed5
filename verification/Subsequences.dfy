/** Subsequences, given by the positions that pick them out. */
module Subsequences {

  ghost predicate Increasing(pos: seq<nat>) {
    forall i, j | 0 <= i < j < |pos| :: pos[i] < pos[j]
  }

  /** `pos` lists, in order, the places of `s` that hold the elements of `p`. */
  ghost predicate Picks<T>(pos: seq<nat>, p: seq<T>, s: seq<T>) {
    && |pos| == |p|
    && Increasing(pos)
    && forall i | 0 <= i < |pos| :: pos[i] < |s| && s[pos[i]] == p[i]
  }

  ghost predicate IsSubsequence<T>(p: seq<T>, s: seq<T>) {
    exists pos :: Picks(pos, p, s)
  }

  lemma EmptyIsSubsequence<T>(s: seq<T>)
    ensures IsSubsequence([], s)
  {
    assert Picks([], [], s);
  }

  lemma IsItsOwnSubsequence<T>(s: seq<T>)
    ensures IsSubsequence(s, s)
  {
    var pos: seq<nat> := seq(|s|, i => i);
    assert Picks(pos, s, s);
  }

  lemma Weaken<T>(p: seq<T>, s: seq<T>, x: T)
    requires IsSubsequence(p, s)
    ensures IsSubsequence(p, s + [x])
  {
    var pos: seq<nat> :| Picks(pos, p, s);
    assert Picks(pos, p, s + [x]);
  }

  lemma Extend<T>(p: seq<T>, s: seq<T>, x: T)
    requires IsSubsequence(p, s)
    ensures IsSubsequence(p + [x], s + [x])
  {
    var pos: seq<nat> :| Picks(pos, p, s);
    assert Picks(pos + [|s|], p + [x], s + [x]);
  }

  /** The last element of `p` sits at the end of `s` or strictly before it. */
  lemma SplitLast<T>(p: seq<T>, s: seq<T>, x: T)
    requires p != [] && IsSubsequence(p, s + [x])
    ensures IsSubsequence(p[..|p| - 1], s)
    ensures p[|p| - 1] != x ==> IsSubsequence(p, s)
  {
    var pos: seq<nat> :| Picks(pos, p, s + [x]);
    var n := |p| - 1;
    assert Picks(pos[..n], p[..n], s) by {
      forall i | 0 <= i < n ensures pos[i] < |s| && s[pos[i]] == p[i] {
        assert pos[i] < pos[n];
      }
    }
    if p[n] != x {
      assert pos[n] != |s|;
      assert Picks(pos, p, s) by {
        forall i | 0 <= i <= n ensures pos[i] < |s| && s[pos[i]] == p[i] {
          assert pos[i] <= pos[n];
        }
      }
    }
  }

  /** The i-th position is at least i, and leaves room for the ones after it. */
  lemma {:induction false} PositionBounds(pos: seq<nat>, n: nat, i: nat)
    requires Increasing(pos) && i < |pos|
    requires forall k | 0 <= k < |pos| :: pos[k] < n
    ensures i <= pos[i] && pos[i] + (|pos| - i) <= n
  {
    for k := 0 to i
      invariant k <= pos[k]
    {
      assert pos[k] < pos[k + 1];
    }
    for k := |pos| - 1 downto i
      invariant pos[k] + (|pos| - k) <= n
    {
      assert pos[k] < pos[k + 1];
    }
  }

  lemma NoLongerThanWhole<T>(p: seq<T>, s: seq<T>)
    requires IsSubsequence(p, s)
    ensures |p| <= |s|
    ensures |p| == |s| ==> p == s
  {
    var pos: seq<nat> :| Picks(pos, p, s);
    forall i | 0 <= i < |p| ensures i <= pos[i] && pos[i] + (|p| - i) <= |s| {
      PositionBounds(pos, |s|, i);
    }
    if |p| == |s| {
      assert forall i | 0 <= i < |p| :: pos[i] == i;
    }
    if |p| > 0 { PositionBounds(pos, |s|, 0); }
  }
}
