/** The UTF-8 encoding of characters, section 3 of RFC 3629. */
module Utf8 {

  /** Length of one character. */
  function Width(c: char): (w: nat)
    ensures 1 <= w <= 4
  {
    if c as int < 0x80 then 1 else if c as int < 0x800 then 2 else if c as int < 0x10000 then 3 else 4
  }

  function ByteLength(s: string): nat {
    if s == [] then 0 else ByteLength(s[..|s| - 1]) + Width(s[|s| - 1])
  }

  lemma {:induction false} ByteLengthAtLeastCharacters(s: string)
    ensures |s| <= ByteLength(s)
  {
    if s != [] {
      ByteLengthAtLeastCharacters(s[..|s| - 1]);
    }
  }

  // ---------- The bytes ----------

  /** What is left of a number without its last `k` groups of six bits. */
  function Lead(n: nat, k: nat): nat { if k == 0 then n else Lead(n / 64, k - 1) }

  /** The last `k` groups of six bits, each in a continuation byte. */
  function Trail(n: nat, k: nat): (s: seq<nat>)
    ensures |s| == k && forall i | 0 <= i < k :: 0x80 <= s[i] < 0xc0
  {
    if k == 0 then [] else Trail(n / 64, k - 1) + [0x80 + n % 64]
  }

  /** Marks of the first byte, by the length of the encoding. */
  function Mark(width: nat): nat { match width case 1 => 0 case 2 => 0xc0 case 3 => 0xe0 case _ => 0xf0 }

  function Encode(c: char): seq<nat> {
    var w := Width(c);
    [Mark(w) + Lead(c as nat, w - 1)] + Trail(c as nat, w - 1)
  }

  function EncodeAll(s: string): seq<nat> {
    if s == [] then [] else EncodeAll(s[..|s| - 1]) + Encode(s[|s| - 1])
  }

  // ---------- Reading them back ----------

  function Append(acc: nat, s: seq<nat>): int {
    if s == [] then acc else Append(acc, s[..|s| - 1]) * 64 + s[|s| - 1] - 0x80
  }

  /** The length that the first byte announces. */
  function Announced(first: nat): nat {
    if first < 0x80 then 1 else if first < 0xe0 then 2 else if first < 0xf0 then 3 else 4
  }

  function Decode(s: seq<nat>): int
    requires s != []
  {
    Append(if s[0] >= Mark(Announced(s[0])) then s[0] - Mark(Announced(s[0])) else 0, s[1..])
  }

  lemma {:induction false} AppendTrail(n: nat, k: nat)
    ensures Append(Lead(n, k), Trail(n, k)) == n
  {
    if k > 0 {
      AppendTrail(n / 64, k - 1);
      var s := Trail(n / 64, k - 1);
      assert (s + [0x80 + n % 64])[..|s|] == s;
    }
  }

  lemma LeadByte(c: char)
    ensures var w := Width(c); Announced(Mark(w) + Lead(c as nat, w - 1)) == w
  {
    var n := c as nat;
    assert Lead(n, 1) == n / 64;
    assert Lead(n, 2) == Lead(n / 64, 1) == n / 64 / 64;
    assert Lead(n, 3) == Lead(n / 64, 2) == Lead(n / 64 / 64, 1) == n / 64 / 64 / 64;
  }

  lemma DecodeParts(w: nat, lead: nat, trail: seq<nat>)
    requires Announced(Mark(w) + lead) == w
    ensures Decode([Mark(w) + lead] + trail) == Append(lead, trail)
  {
    assert ([Mark(w) + lead] + trail)[1..] == trail;
  }

  /** A character can be read back from its bytes, and the first of them announces how many there are. */
  lemma DecodeUndoesEncode(c: char)
    ensures Decode(Encode(c)) == c as int
    ensures |Encode(c)| == Width(c) == Announced(Encode(c)[0])
  {
    var n, w := c as nat, Width(c);
    LeadByte(c);
    DecodeParts(w, Lead(n, w - 1), Trail(n, w - 1));
    AppendTrail(n, w - 1);
  }

  /** The byte length is the length of the encoding. */
  lemma {:induction false} ByteLengthIsEncoded(s: string)
    ensures ByteLength(s) == |EncodeAll(s)|
  {
    if s != [] {
      ByteLengthIsEncoded(s[..|s| - 1]);
      DecodeUndoesEncode(s[|s| - 1]);
    }
  }
}
