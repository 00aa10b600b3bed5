/** Command-line comparison: the two-row longest-common-subsequence program and the similarity ratio. */
module CommandLineSimilarity {
  import opened Subsequences
  import opened RealFacts
  import opened Utf8

  // ---------- Longest common subsequence ----------

  function Max(x: nat, y: nat): nat { if x < y then y else x }

  /** The textbook recursion, on the last characters. */
  function LcsLength(a: string, b: string): nat
    decreases |a| + |b|
  {
    if a == [] || b == [] then 0
    else
      var a', b' := a[..|a| - 1], b[..|b| - 1];
      if a[|a| - 1] == b[|b| - 1] then LcsLength(a', b') + 1
      else Max(LcsLength(a', b), LcsLength(a, b'))
  }

  ghost predicate Common(c: string, a: string, b: string) {
    IsSubsequence(c, a) && IsSubsequence(c, b)
  }

  /** Some common subsequence is as long as the recursion says. */
  lemma {:induction false} LcsAttained(a: string, b: string) returns (c: string)
    ensures Common(c, a, b) && |c| == LcsLength(a, b)
    decreases |a| + |b|
  {
    if a == [] || b == [] {
      c := [];
      EmptyIsSubsequence(a);
      EmptyIsSubsequence(b);
    } else {
      var a', b', x, y := a[..|a| - 1], b[..|b| - 1], a[|a| - 1], b[|b| - 1];
      assert a == a' + [x] && b == b' + [y];
      if x == y {
        var c' := LcsAttained(a', b');
        Extend(c', a', x);
        Extend(c', b', x);
        c := c' + [x];
      } else if LcsLength(a', b) >= LcsLength(a, b') {
        c := LcsAttained(a', b);
        Weaken(c, a', x);
      } else {
        c := LcsAttained(a, b');
        Weaken(c, b', y);
      }
    }
  }

  /** No common subsequence is longer. */
  lemma {:induction false} LcsMaximal(a: string, b: string, c: string)
    requires Common(c, a, b)
    ensures |c| <= LcsLength(a, b)
    decreases |a| + |b|
  {
    if c == [] {
    } else if a == [] || b == [] {
      NoLongerThanWhole(c, a);
      NoLongerThanWhole(c, b);
    } else {
      var a', b', x, y := a[..|a| - 1], b[..|b| - 1], a[|a| - 1], b[|b| - 1];
      assert a == a' + [x] && b == b' + [y];
      SplitLast(c, a', x);
      SplitLast(c, b', y);
      if x == y {
        LcsMaximal(a', b', c[..|c| - 1]);
      } else if c[|c| - 1] != x {
        LcsMaximal(a', b, c);
      } else {
        LcsMaximal(a, b', c);
      }
    }
  }

  /** The two-row program: `prev` is the finished row, `curr` the one being filled, and they swap. */
  method LongestCommonSubsequenceLength(s1: string, s2: string) returns (length: nat)
    ensures exists c :: Common(c, s1, s2) && |c| == length
    ensures forall c | Common(c, s1, s2) :: |c| <= length
    ensures length == LcsLength(s1, s2)
  {
    var m, n := |s1|, |s2|;
    var prev := new nat[n + 1](_ => 0);
    var curr := new nat[n + 1](_ => 0);
    for i := 1 to m + 1
      invariant prev != curr && prev.Length == curr.Length == n + 1
      invariant fresh(prev) && fresh(curr)
      invariant forall j | 0 <= j <= n :: prev[j] == LcsLength(s1[..i - 1], s2[..j])
      invariant forall j | 0 <= j <= n :: curr[j] == 0
    {
      for j := 1 to n + 1
        invariant curr[0] == 0
        invariant forall k | 0 <= k <= n :: prev[k] == LcsLength(s1[..i - 1], s2[..k])
        invariant forall k | 0 <= k < j :: curr[k] == LcsLength(s1[..i], s2[..k])
      {
        assert s1[..i][..i - 1] == s1[..i - 1] && s2[..j][..j - 1] == s2[..j - 1];
        if s1[i - 1] == s2[j - 1] {
          curr[j] := prev[j - 1] + 1;
        } else {
          curr[j] := Max(prev[j], curr[j - 1]);
        }
      }
      prev, curr := curr, prev;
      forall k | 0 <= k <= n {
        curr[k] := 0;
      }
    }
    length := prev[n];
    assert s1[..m] == s1 && s2[..n] == s2;
    var c := LcsAttained(s1, s2);
    forall c | Common(c, s1, s2) ensures |c| <= length {
      LcsMaximal(s1, s2, c);
    }
  }

  lemma LcsSymmetric(a: string, b: string)
    ensures LcsLength(a, b) == LcsLength(b, a)
  {
    var c := LcsAttained(a, b);
    var d := LcsAttained(b, a);
    LcsMaximal(b, a, c);
    LcsMaximal(a, b, d);
  }

  // ---------- Similarity ----------

  function Similarity(s1: string, s2: string): real {
    if s1 == s2 then 1.0
    else if s1 == [] || s2 == [] then 0.0
    else
      ByteLengthAtLeastCharacters(s1);
      LcsLength(s1, s2) as real / Max(ByteLength(s1), ByteLength(s2)) as real
  }

  ghost predicate IsLongestCommon(c: string, s1: string, s2: string) {
    Common(c, s1, s2) && forall d | Common(d, s1, s2) :: |d| <= |c|
  }

  /** Of different strings, the ratio of a longest common subsequence to the longer encoding. */
  ghost predicate IsRatio(ratio: real, s1: string, s2: string) {
    exists c :: IsLongestCommon(c, s1, s2) && IsQuotient(ratio, |c|, Max(|EncodeAll(s1)|, |EncodeAll(s2)|))
  }

  lemma LongestCommon(s1: string, s2: string) returns (c: string)
    ensures IsLongestCommon(c, s1, s2) && |c| == LcsLength(s1, s2)
  {
    c := LcsAttained(s1, s2);
    forall d | Common(d, s1, s2) ensures |d| <= |c| {
      LcsMaximal(s1, s2, d);
    }
  }

  lemma SimilarityIsRatio(s1: string, s2: string)
    requires s1 != s2 && s1 != [] && s2 != []
    ensures IsRatio(Similarity(s1, s2), s1, s2)
  {
    var c := LongestCommon(s1, s2);
    ByteLengthIsEncoded(s1);
    ByteLengthIsEncoded(s2);
    ByteLengthAtLeastCharacters(s1);
    RatioTimes(|c|, Max(ByteLength(s1), ByteLength(s2)));
  }

  /** The ratio as the program computes it. */
  method CalculateSimilarity(s1: string, s2: string) returns (ratio: real)
    ensures ratio == Similarity(s1, s2)
    ensures 0.0 <= ratio <= 1.0
    ensures ratio == 1.0 <==> s1 == s2
    ensures s1 != s2 && s1 != [] && s2 != [] ==> IsRatio(ratio, s1, s2)
  {
    SimilarityLaws(s1, s2);
    if s1 == s2 {
      return 1.0;
    }
    if s1 == [] || s2 == [] {
      return 0.0;
    }
    SimilarityIsRatio(s1, s2);
    var lcs := LongestCommonSubsequenceLength(s1, s2);
    ByteLengthAtLeastCharacters(s1);
    ratio := lcs as real / Max(ByteLength(s1), ByteLength(s2)) as real;
  }

  /**
   * Symmetric, within [0, 1], and 1 only on equal strings: a byte-length divisor cannot
   * bring two different strings up to 1, because the count above it is of characters.
   */
  lemma SimilarityLaws(s1: string, s2: string)
    ensures 0.0 <= Similarity(s1, s2) <= 1.0
    ensures Similarity(s1, s2) == Similarity(s2, s1)
    ensures Similarity(s1, s2) == 1.0 <==> s1 == s2
    ensures Similarity(s1, s2) == 0.0 <==> s1 != s2 && forall c | Common(c, s1, s2) :: c == []
  {
    LcsSymmetric(s1, s2);
    var c := LcsAttained(s1, s2);
    NoLongerThanWhole(c, s1);
    NoLongerThanWhole(c, s2);
    ByteLengthAtLeastCharacters(s1);
    ByteLengthAtLeastCharacters(s2);
    forall d | Common(d, s1, s2) ensures |d| <= LcsLength(s1, s2) {
      LcsMaximal(s1, s2, d);
    }
    if s1 == s2 {
    } else if s1 == [] || s2 == [] {
      assert forall d | Common(d, s1, s2) :: d == [];
    } else {
      var n := Max(ByteLength(s1), ByteLength(s2));
      RatioBounds(|c|, n);
      assert |c| < n;
      if |c| == 0 {
        assert forall d | Common(d, s1, s2) :: |d| <= 0;
      }
    }
  }
}
