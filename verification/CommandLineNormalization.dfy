/** Command-line normalization: split on white space, join with single blanks, lower-case. */
module CommandLineNormalization {

  /** The Unicode White_Space property. */
  predicate IsSpace(c: char) {
    var n := c as int;
    || 0x09 <= n <= 0x0d || n == 0x20 || n == 0x85 || n == 0xa0 || n == 0x1680
    || 0x2000 <= n <= 0x200a || n == 0x2028 || n == 0x2029 || n == 0x202f || n == 0x205f || n == 0x3000
  }

  /** The 25 characters that have it. */
  lemma SpacesListed(c: char)
    ensures IsSpace(c) <==>
              c as int in [0x09, 0x0a, 0x0b, 0x0c, 0x0d, 0x20, 0x85, 0xa0, 0x1680, 0x2000, 0x2001, 0x2002, 0x2003,
                           0x2004, 0x2005, 0x2006, 0x2007, 0x2008, 0x2009, 0x200a, 0x2028, 0x2029, 0x202f, 0x205f,
                           0x3000]
  {
  }

  predicate IsWord(w: string) {
    w != [] && forall i | 0 <= i < |w| :: !IsSpace(w[i])
  }

  predicate AllWords(ws: seq<string>) {
    forall i | 0 <= i < |ws| :: IsWord(ws[i])
  }

  /** True when the text ends inside a word, so that the next non-blank continues it. */
  predicate EndsInWord(s: string) {
    s != [] && !IsSpace(s[|s| - 1])
  }

  function SplitWhitespace(s: string): (ws: seq<string>)
    ensures AllWords(ws)
    ensures EndsInWord(s) ==> ws != []
  {
    if s == [] then []
    else
      var before, c := s[..|s| - 1], s[|s| - 1];
      var ws := SplitWhitespace(before);
      if IsSpace(c) then ws
      else if EndsInWord(before) then ws[..|ws| - 1] + [ws[|ws| - 1] + [c]]
      else ws + [[c]]
  }

  function Join(ws: seq<string>): string {
    if ws == [] then []
    else if |ws| == 1 then ws[0]
    else Join(ws[..|ws| - 1]) + " " + ws[|ws| - 1]
  }

  function Concat(ws: seq<string>): string { if ws == [] then [] else Concat(ws[..|ws| - 1]) + ws[|ws| - 1] }

  function WithoutSpaces(s: string): string {
    if s == [] then []
    else WithoutSpaces(s[..|s| - 1]) + if IsSpace(s[|s| - 1]) then [] else [s[|s| - 1]]
  }

  /** The words hold the characters of the text that are no white space, in order. */
  lemma {:induction false} SplitKeepsCharacters(s: string)
    ensures Concat(SplitWhitespace(s)) == WithoutSpaces(s)
  {
    if s != [] {
      var before, c := s[..|s| - 1], s[|s| - 1];
      SplitKeepsCharacters(before);
      var ws := SplitWhitespace(before);
      if !IsSpace(c) && EndsInWord(before) {
        var front, w := ws[..|ws| - 1], ws[|ws| - 1];
        assert (front + [w + [c]])[..|front|] == front;
        assert Concat(front) + (w + [c]) == (Concat(front) + w) + [c];
      } else if !IsSpace(c) {
        assert (ws + [[c]])[..|ws|] == ws;
      }
    }
  }

  lemma SplitStep(before: string, c: char)
    requires !IsSpace(c)
    ensures var ws := SplitWhitespace(before);
            SplitWhitespace(before + [c])
            == if EndsInWord(before) then ws[..|ws| - 1] + [ws[|ws| - 1] + [c]] else ws + [[c]]
  {
    assert (before + [c])[..|before|] == before;
  }

  /** One more character of the word that was appended to `s`. */
  lemma SplitGrowsWord(s: string, w: string, c: char, ws: seq<string>)
    requires IsWord(w) && !IsSpace(c) && SplitWhitespace(s + w) == ws + [w]
    ensures SplitWhitespace(s + (w + [c])) == ws + [w + [c]]
  {
    assert s + (w + [c]) == (s + w) + [c];
    assert EndsInWord(s + w) by {
      assert (s + w)[|s + w| - 1] == w[|w| - 1];
    }
    SplitStep(s + w, c);
    assert (ws + [w])[..|ws|] == ws;
  }

  /** Appending a word to a text that does not end in one adds exactly that word. */
  lemma {:induction false} SplitAppendWord(s: string, w: string)
    requires !EndsInWord(s) && IsWord(w)
    ensures SplitWhitespace(s + w) == SplitWhitespace(s) + [w]
    decreases |w|
  {
    var w', c := w[..|w| - 1], w[|w| - 1];
    assert w == w' + [c];
    if w' == [] {
      assert w == [c];
      SplitStep(s, c);
    } else {
      SplitAppendWord(s, w');
      SplitGrowsWord(s, w', c, SplitWhitespace(s));
    }
  }

  lemma SplitAfterBlank(s: string, w: string)
    requires IsWord(w)
    ensures SplitWhitespace(s + " " + w) == SplitWhitespace(s) + [w]
  {
    assert (s + " ")[..|s|] == s;
    SplitAppendWord(s + " ", w);
  }

  /** Splitting undoes joining. */
  lemma {:induction false} SplitJoin(ws: seq<string>)
    requires AllWords(ws)
    ensures SplitWhitespace(Join(ws)) == ws
  {
    if ws == [] {
    } else if |ws| == 1 {
      SplitAppendWord([], ws[0]);
      assert [] + ws[0] == ws[0];
    } else {
      var front, w := ws[..|ws| - 1], ws[|ws| - 1];
      SplitJoin(front);
      SplitAfterBlank(Join(front), w);
      assert front + [w] == ws;
    }
  }

  // ---------- Lower-casing, as a parameter ----------

  /**
   * What lower-casing promises of whole strings: a blank separates, words map to words, and a
   * lower-cased word is lower case. A letter may depend on its neighbours in the word, as a final
   * sigma does.
   */
  ghost predicate LowersWords(lower: string -> string) {
    && lower([]) == []
    && (forall s, t :: lower(s + " " + t) == lower(s) + " " + lower(t))
    && (forall w | IsWord(w) :: IsWord(lower(w)) && lower(lower(w)) == lower(w))
  }

  function LowerAll(lower: string -> string, ws: seq<string>): (r: seq<string>)
    ensures |r| == |ws|
    ensures forall i | 0 <= i < |ws| :: r[i] == lower(ws[i])
  {
    seq(|ws|, i requires 0 <= i < |ws| => lower(ws[i]))
  }

  function NormalizeCmdline(lower: string -> string, cmdline: string): string {
    lower(Join(SplitWhitespace(cmdline)))
  }

  lemma {:induction false} LowerJoin(lower: string -> string, ws: seq<string>)
    requires LowersWords(lower)
    ensures lower(Join(ws)) == Join(LowerAll(lower, ws))
  {
    if |ws| > 1 {
      var front, w := ws[..|ws| - 1], ws[|ws| - 1];
      LowerJoin(lower, front);
      assert lower(Join(front) + " " + w) == lower(Join(front)) + " " + lower(w);
      assert LowerAll(lower, ws)[..|ws| - 1] == LowerAll(lower, front);
    }
  }

  /** The words of a normalized command line are the lower-cased words of the original. */
  lemma NormalizedWords(lower: string -> string, s: string)
    requires LowersWords(lower)
    ensures NormalizeCmdline(lower, s) == Join(LowerAll(lower, SplitWhitespace(s)))
    ensures SplitWhitespace(NormalizeCmdline(lower, s)) == LowerAll(lower, SplitWhitespace(s))
  {
    LowerJoin(lower, SplitWhitespace(s));
    SplitJoin(LowerAll(lower, SplitWhitespace(s)));
  }

  lemma NormalizeIdempotent(lower: string -> string, s: string)
    requires LowersWords(lower)
    ensures NormalizeCmdline(lower, NormalizeCmdline(lower, s)) == NormalizeCmdline(lower, s)
  {
    var ws := SplitWhitespace(s);
    NormalizedWords(lower, s);
    NormalizedWords(lower, NormalizeCmdline(lower, s));
    assert LowerAll(lower, LowerAll(lower, ws)) == LowerAll(lower, ws);
  }

  /** Two command lines normalize alike exactly when they have the same words up to case. */
  lemma NormalizeEqualIff(lower: string -> string, s: string, t: string)
    requires LowersWords(lower)
    ensures NormalizeCmdline(lower, s) == NormalizeCmdline(lower, t)
       <==> LowerAll(lower, SplitWhitespace(s)) == LowerAll(lower, SplitWhitespace(t))
  {
    NormalizedWords(lower, s);
    NormalizedWords(lower, t);
  }

  // ---------- Character tables are one way to lower-case ----------

  /** A case table: blanks stay, words map to words, and images are already lower case. */
  ghost predicate CaseTable(table: char -> string) {
    && table(' ') == " "
    && (forall c | !IsSpace(c) :: IsWord(table(c)))
    && (forall c, i | !IsSpace(c) && 0 <= i < |table(c)| :: table(table(c)[i]) == [table(c)[i]])
  }

  function Lower(table: char -> string, s: string): string {
    if s == [] then [] else Lower(table, s[..|s| - 1]) + table(s[|s| - 1])
  }

  lemma {:induction false} LowerConcat(table: char -> string, s: string, t: string)
    ensures Lower(table, s + t) == Lower(table, s) + Lower(table, t)
  {
    if t == [] {
      assert s + t == s;
    } else {
      var t' := t[..|t| - 1];
      assert (s + t)[..|s + t| - 1] == s + t';
      LowerConcat(table, s, t');
    }
  }

  lemma {:induction false} LowerFixed(table: char -> string, s: string)
    requires forall i | 0 <= i < |s| :: table(s[i]) == [s[i]]
    ensures Lower(table, s) == s
  {
    if s != [] {
      LowerFixed(table, s[..|s| - 1]);
    }
  }

  lemma {:induction false} LowerWord(table: char -> string, w: string)
    requires CaseTable(table) && IsWord(w)
    ensures IsWord(Lower(table, w))
    ensures Lower(table, Lower(table, w)) == Lower(table, w)
  {
    var w', image := w[..|w| - 1], table(w[|w| - 1]);
    LowerFixed(table, image);
    if w' == [] {
      assert Lower(table, w) == image;
    } else {
      LowerWord(table, w');
      LowerConcat(table, Lower(table, w'), image);
    }
  }

  /** Replacing every character by its entry in a case table meets the promises. */
  lemma TableLowersWords(table: char -> string)
    requires CaseTable(table)
    ensures LowersWords(s => Lower(table, s))
  {
    forall s, t ensures Lower(table, s + " " + t) == Lower(table, s) + " " + Lower(table, t) {
      LowerConcat(table, s + " ", t);
      LowerConcat(table, s, " ");
      assert Lower(table, " ") == " ";
    }
    forall w | IsWord(w) ensures IsWord(Lower(table, w)) && Lower(table, Lower(table, w)) == Lower(table, w) {
      LowerWord(table, w);
    }
  }
}
