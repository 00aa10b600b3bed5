/** The build script's SHA-256: 32-bit words, the chain over the padded message, and the hex digest. */
module Sha256 {
  import opened Sha256Padding
  import opened CompressionRounds
  import opened WordBits

  const TWO_32: nat := 0x1_0000_0000

  newtype Word = x: int | 0 <= x < 0x1_0000_0000

  // ---------- Word operations, section 4.1.2 of FIPS 180-4 ----------

  /** Addition and subtraction wrap around. */
  function Plus(x: Word, y: Word): Word {
    var sum := x as int + y as int;
    (if sum < TWO_32 then sum else sum - TWO_32) as Word
  }

  function Minus(x: Word, y: Word): Word {
    var difference := x as int - y as int;
    (if difference >= 0 then difference else difference + TWO_32) as Word
  }

  function Ch(x: Word, y: Word, z: Word): Word { Choose(x as bv32, y as bv32, z as bv32) as Word }

  function Maj(x: Word, y: Word, z: Word): Word { Majority(x as bv32, y as bv32, z as bv32) as Word }

  function BigSigma0(x: Word): Word { UpperSigma0(x as bv32) as Word }

  function BigSigma1(x: Word): Word { UpperSigma1(x as bv32) as Word }

  function SmallSigma0(x: Word): Word { LowerSigma0(x as bv32) as Word }

  function SmallSigma1(x: Word): Word { LowerSigma1(x as bv32) as Word }

  function WordOps(): Ops<Word> { Ops(Plus, Minus, Ch, Maj, BigSigma0, BigSigma1, SmallSigma0, SmallSigma1) }

  // ---------- What the operations do, bit by bit ----------

  lemma BackAndForth(x: bv32)
    ensures (x as Word) as bv32 == x
  {
  }

  lemma PlusIsModular(x: Word, y: Word)
    ensures Plus(x, y) as int == (x as int + y as int) % TWO_32
  {
  }

  /** Each bit of the choice is the second word's where the first has a one, else the third's. */
  lemma ChooseBits(x: Word, y: Word, z: Word, u: bv32, v: bv32, w: bv32, n: bv5)
    requires u == x as bv32 && v == y as bv32 && w == z as bv32
    ensures Bit(u, n) ==> Bit(Ch(x, y, z) as bv32, n) == Bit(v, n)
    ensures !Bit(u, n) ==> Bit(Ch(x, y, z) as bv32, n) == Bit(w, n)
  {
    BackAndForth(Choose(u, v, w));
    RawChoose(u, v, w, n);
  }

  /** Each bit of the majority is the one that at least two of the words have there. */
  lemma MajorityBits(x: Word, y: Word, z: Word, n: bv5)
    ensures var p, q, r, m := Bit(x as bv32, n), Bit(y as bv32, n), Bit(z as bv32, n), Bit(Maj(x, y, z) as bv32, n);
            (p == q ==> m == p) && (p == r ==> m == p) && (q == r ==> m == q)
  {
    BackAndForth(Majority(x as bv32, y as bv32, z as bv32));
    RawMajority(x as bv32, y as bv32, z as bv32, n);
  }

  // The bits that each of the four sigma functions adds up without carry.

  lemma BigSigma0Bits(x: Word, v: bv32, n: bv5)
    requires v == x as bv32
    ensures Bit(BigSigma0(x) as bv32, n) == (Bit(v, n + 2) != (Bit(v, n + 13) != (Bit(v, n + 22))))
  {
    BackAndForth(UpperSigma0(v));
    RawUpperSigma0(v, n);
  }

  lemma BigSigma1Bits(x: Word, v: bv32, n: bv5)
    requires v == x as bv32
    ensures Bit(BigSigma1(x) as bv32, n) == (Bit(v, n + 6) != (Bit(v, n + 11) != (Bit(v, n + 25))))
  {
    BackAndForth(UpperSigma1(v));
    RawUpperSigma1(v, n);
  }

  lemma SmallSigma0Bits(x: Word, v: bv32, n: bv5)
    requires v == x as bv32
    ensures Bit(SmallSigma0(x) as bv32, n) == (Bit(v, n + 7) != (Bit(v, n + 18) != (n < 29 && Bit(v, n + 3))))
  {
    BackAndForth(LowerSigma0(v));
    RawLowerSigma0(v, n);
  }

  lemma SmallSigma1Bits(x: Word, v: bv32, n: bv5)
    requires v == x as bv32
    ensures Bit(SmallSigma1(x) as bv32, n) == (Bit(v, n + 17) != (Bit(v, n + 19) != (n < 22 && Bit(v, n + 10))))
  {
    BackAndForth(LowerSigma1(v));
    RawLowerSigma1(v, n);
  }

  lemma PlusThenMinus(x: Word, y: Word)
    ensures Minus(Plus(x, y), y) == x
  {
  }

  lemma PlusAssociates(x: Word, y: Word, z: Word)
    ensures Plus(Plus(x, y), z) == Plus(x, Plus(y, z))
  {
  }

  lemma WordsSubtract()
    ensures Subtracts(WordOps())
  {
    var o := WordOps();
    forall x, y ensures o.sub(o.add(x, y), y) == x {
      PlusThenMinus(x, y);
    }
  }

  /** For one block and one set of constants, different registers stay different through all the rounds. */
  lemma RoundsInjective(r: Registers<Word>, r': Registers<Word>, ks: seq<Word>, ws: seq<Word>, n: nat)
    requires n <= |ks| && n <= |ws|
    ensures Rounds(WordOps(), r, ks, ws, n) == Rounds(WordOps(), r', ks, ws, n) <==> r == r'
  {
    WordsSubtract();
    UnroundsUndoRounds(WordOps(), r, ks, ws, n);
    UnroundsUndoRounds(WordOps(), r', ks, ws, n);
  }

  lemma WordsReorder()
    ensures Reorders(WordOps())
  {
    var o := WordOps();
    assert forall x, y :: o.add(x, y) == o.add(y, x);
    forall x, y, z ensures o.add(o.add(x, y), z) == o.add(x, o.add(y, z)) {
      PlusAssociates(x, y, z);
    }
    GroupReorders(o);
  }

  // ---------- Constants, sections 4.2.2 and 5.3.3 ----------

  function InitialHash(): Registers<Word> {
    Registers(0x6a09e667, 0xbb67ae85, 0x3c6ef372, 0xa54ff53a, 0x510e527f, 0x9b05688c, 0x1f83d9ab, 0x5be0cd19)
  }

  function RoundConstants(): (ks: seq<Word>)
    ensures |ks| == 64 && forall i | 0 <= i < 64 :: ks[i] == ConstantRow(i / 8)[i % 8]
  {
    seq(64, i requires 0 <= i < 64 => ConstantRow(i / 8)[i % 8])
  }

  function ConstantRow(row: nat): (ks: seq<Word>)
    ensures |ks| == 8
  {
    match row
    case 0 => [0x428a2f98, 0x71374491, 0xb5c0fbcf, 0xe9b5dba5, 0x3956c25b, 0x59f111f1, 0x923f82a4, 0xab1c5ed5]
    case 1 => [0xd807aa98, 0x12835b01, 0x243185be, 0x550c7dc3, 0x72be5d74, 0x80deb1fe, 0x9bdc06a7, 0xc19bf174]
    case 2 => [0xe49b69c1, 0xefbe4786, 0x0fc19dc6, 0x240ca1cc, 0x2de92c6f, 0x4a7484aa, 0x5cb0a9dc, 0x76f988da]
    case 3 => [0x983e5152, 0xa831c66d, 0xb00327c8, 0xbf597fc7, 0xc6e00bf3, 0xd5a79147, 0x06ca6351, 0x14292967]
    case 4 => [0x27b70a85, 0x2e1b2138, 0x4d2c6dfc, 0x53380d13, 0x650a7354, 0x766a0abb, 0x81c2c92e, 0x92722c85]
    case 5 => [0xa2bfe8a1, 0xa81a664b, 0xc24b8b70, 0xc76c51a3, 0xd192e819, 0xd6990624, 0xf40e3585, 0x106aa070]
    case 6 => [0x19a4c116, 0x1e376c08, 0x2748774c, 0x34b0bcb5, 0x391c0cb3, 0x4ed8aa4a, 0x5b9cca4f, 0x682e6ff3]
    case _ => [0x748f82ee, 0x78a5636f, 0x84c87814, 0x8cc70208, 0x90befffa, 0xa4506ceb, 0xbef9a3f7, 0xc67178f2]
  }

  // ---------- Blocks ----------

  /** Four bytes as a word, most significant first. */
  function WordAt(p: seq<byte>, i: nat): Word
    requires i + 3 < |p|
  {
    (((p[i] as int * 256 + p[i + 1] as int) * 256 + p[i + 2] as int) * 256 + p[i + 3] as int) as Word
  }

  /** The bytes of a word come most significant first. */
  lemma WordIsBigEndian(p: seq<byte>, i: nat)
    requires i + 3 < |p|
    ensures WordAt(p, i) as nat == FromBigEndian(p[i..i + 4])
  {
    var s := p[i..i + 4];
    assert s[..3][..2] == s[..2] && s[..2][..1] == s[..1] && s[..1][..0] == [];
    assert FromBigEndian(s[..1]) == p[i] as nat;
    assert FromBigEndian(s[..2]) == FromBigEndian(s[..1]) * 256 + p[i + 1] as nat;
    assert FromBigEndian(s[..3]) == FromBigEndian(s[..2]) * 256 + p[i + 2] as nat;
  }

  function BlockAt(p: seq<byte>, n: nat): (block: seq<Word>)
    requires 64 * n + 64 <= |p|
    ensures |block| == 16
  {
    seq(16, i requires 0 <= i < 16 => WordAt(p, 64 * n + 4 * i))
  }

  function BlocksOf(p: seq<byte>, n: nat): (blocks: seq<seq<Word>>)
    requires 64 * n <= |p|
    ensures |blocks| == n && forall i | 0 <= i < n :: |blocks[i]| == 16
  {
    if n == 0 then [] else BlocksOf(p, n - 1) + [BlockAt(p, n - 1)]
  }

  /** Word `j` of block `i` is the big-endian value of its four bytes. */
  lemma {:induction false} BlocksAreBigEndian(p: seq<byte>, n: nat, i: nat, j: nat)
    requires 64 * n <= |p| && i < n && j < 16
    ensures BlocksOf(p, n)[i][j] as nat == FromBigEndian(p[64 * i + 4 * j..64 * i + 4 * j + 4])
  {
    if i == n - 1 {
      WordIsBigEndian(p, 64 * i + 4 * j);
    } else {
      BlocksAreBigEndian(p, n - 1, i, j);
    }
  }

  /** The hash as a chain of compressions of the padded message. */
  function HashOf(ks: seq<Word>, h: Registers<Word>, p: seq<byte>, n: nat): Registers<Word>
    requires |ks| == 64 && 64 * n <= |p|
  {
    Chain(WordOps(), ks, h, BlocksOf(p, n))
  }

  method HashBlocks(ks: seq<Word>, h0: Registers<Word>, p: seq<byte>) returns (h: Registers<Word>)
    requires |ks| == 64 && |p| % 64 == 0
    ensures h == HashOf(ks, h0, p, |p| / 64)
  {
    h := h0;
    WordsReorder();
    var o := WordOps();
    for n := 0 to |p| / 64
      invariant h == Chain(o, ks, h0, BlocksOf(p, n))
    {
      var blocks := BlocksOf(p, n + 1);
      assert blocks[..n] == BlocksOf(p, n);
      h := CompressBlock(o, ks, h, BlockAt(p, n));
    }
  }

  // ---------- Hex digest ----------

  const DIGITS := "0123456789abcdef"

  /** Lower-case hexadecimal, padded with zeros to `k` places. */
  function Hex(n: nat, k: nat): (s: string)
    ensures |s| == k
  {
    if k == 0 then [] else Hex(n / 16, k - 1) + [DIGITS[n % 16]]
  }

  function HexValue(c: char): nat {
    if '0' <= c <= '9' then (c - '0') as nat else if 'a' <= c <= 'f' then 10 + (c - 'a') as nat else 0
  }

  function FromHex(s: string): nat {
    if s == [] then 0 else FromHex(s[..|s| - 1]) * 16 + HexValue(s[|s| - 1])
  }

  function Power16(k: nat): nat { if k == 0 then 1 else 16 * Power16(k - 1) }

  lemma DigitValue(d: nat)
    requires d < 16
    ensures HexValue(DIGITS[d]) == d
  {
  }

  lemma {:induction false} HexRoundTrip(n: nat, k: nat)
    requires n < Power16(k)
    ensures FromHex(Hex(n, k)) == n
  {
    if k > 0 {
      assert n / 16 < Power16(k - 1);
      HexRoundTrip(n / 16, k - 1);
      DigitValue(n % 16);
      var s := Hex(n / 16, k - 1);
      assert (s + [DIGITS[n % 16]])[..|s|] == s;
    }
  }

  function HexWord(w: Word): (s: string)
    ensures |s| == 8
  {
    Hex(w as nat, 8)
  }

  function HexDigest(h: Registers<Word>): (s: string)
    ensures |s| == 64
  {
    HexWord(h.a) + HexWord(h.b) + HexWord(h.c) + HexWord(h.d)
    + HexWord(h.e) + HexWord(h.f) + HexWord(h.g) + HexWord(h.h)
  }

  lemma DigestParts(h: Registers<Word>)
    ensures var s := HexDigest(h);
            && s[0..8] == HexWord(h.a) && s[8..16] == HexWord(h.b)
            && s[16..24] == HexWord(h.c) && s[24..32] == HexWord(h.d)
            && s[32..40] == HexWord(h.e) && s[40..48] == HexWord(h.f)
            && s[48..56] == HexWord(h.g) && s[56..64] == HexWord(h.h)
  {
  }

  lemma HexWordReadsBack(w: Word)
    ensures FromHex(HexWord(w)) == w as nat
  {
    assert Power16(4) == 0x1_0000;
    assert Power16(8) == 16 * (16 * (16 * (16 * Power16(4)))) == TWO_32;
    HexRoundTrip(w as nat, 8);
  }

  /** The digest is the eight registers in order, eight hexadecimal digits each. */
  lemma DigestReadsBack(h: Registers<Word>)
    ensures var s := HexDigest(h);
            && FromHex(s[0..8]) == h.a as nat && FromHex(s[8..16]) == h.b as nat
            && FromHex(s[16..24]) == h.c as nat && FromHex(s[24..32]) == h.d as nat
            && FromHex(s[32..40]) == h.e as nat && FromHex(s[40..48]) == h.f as nat
            && FromHex(s[48..56]) == h.g as nat && FromHex(s[56..64]) == h.h as nat
  {
    DigestParts(h);
    HexWordReadsBack(h.a);
    HexWordReadsBack(h.b);
    HexWordReadsBack(h.c);
    HexWordReadsBack(h.d);
    HexWordReadsBack(h.e);
    HexWordReadsBack(h.f);
    HexWordReadsBack(h.g);
    HexWordReadsBack(h.h);
  }

  /** Different hash values print differently. */
  lemma HexDigestInjective(x: Registers<Word>, y: Registers<Word>)
    requires HexDigest(x) == HexDigest(y)
    ensures x == y
  {
    DigestReadsBack(x);
    DigestReadsBack(y);
  }

  /** The whole function: pad, chain the blocks, print. */
  method Sha256Hash(data: seq<byte>) returns (digest: string)
    ensures |digest| == 64
    ensures |Padded(data)| % 64 == 0
    ensures digest == HexDigest(HashOf(RoundConstants(), InitialHash(), Padded(data), |Padded(data)| / 64))
  {
    var padded := PadMessage(data);
    var h := HashBlocks(RoundConstants(), InitialHash(), padded);
    digest := HexDigest(h);
  }
}
