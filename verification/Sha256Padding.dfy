/** Message padding of SHA-256, section 5.1.1 of FIPS 180-4. */
module Sha256Padding {
  import opened Counting
  import opened IntegerFacts

  newtype byte = b: int | 0 <= b < 256

  // ---------- Big-endian integers ----------

  function BigEndian(n: nat, k: nat): (s: seq<byte>)
    ensures |s| == k
  {
    if k == 0 then [] else BigEndian(n / 256, k - 1) + [(n % 256) as byte]
  }

  function FromBigEndian(s: seq<byte>): nat {
    if s == [] then 0 else FromBigEndian(s[..|s| - 1]) * 256 + s[|s| - 1] as nat
  }

  function Power256(k: nat): (p: nat)
    ensures p > 0
  {
    if k == 0 then 1 else 256 * Power256(k - 1)
  }

  lemma {:induction false} BigEndianRoundTrip(n: nat, k: nat)
    requires n < Power256(k)
    ensures FromBigEndian(BigEndian(n, k)) == n
  {
    if k > 0 {
      assert n / 256 < Power256(k - 1);
      BigEndianRoundTrip(n / 256, k - 1);
      var s := BigEndian(n / 256, k - 1);
      assert (s + [(n % 256) as byte])[..|s|] == s;
    }
  }

  lemma EightBytesHold64Bits()
    ensures Power256(8) == TWO_64
  {
    assert Power256(4) == 0x1_0000_0000;
    assert Power256(8) == 256 * (256 * (256 * (256 * Power256(4))));
  }

  // ---------- Padding ----------

  /** Zero bytes between the end mark and the length. */
  function ZeroCount(length: nat): (k: nat)
    ensures k < 64 && (length + 1 + k) % 64 == 56
  {
    var r := (length + 1) % 64;
    if r <= 56 then 56 - r else 120 - r
  }

  /** The length in bits, as the 64-bit word that holds it. */
  function BitLength(length: nat): nat { length * 8 % TWO_64 }

  function Padded(m: seq<byte>): seq<byte> {
    m + [0x80] + Repeat<byte>(0, ZeroCount(|m|)) + BigEndian(BitLength(|m|), 8)
  }

  function PaddedLength(length: nat): nat { length + 1 + ZeroCount(length) + 8 }

  lemma PaddedSize(m: seq<byte>)
    ensures |Padded(m)| == PaddedLength(|m|)
    ensures Padded(m)[..|m|] == m
    ensures Padded(m)[|Padded(m)| - 8..] == BigEndian(BitLength(|m|), 8)
  {
    RepeatIsConstant<byte>(0, ZeroCount(|m|));
  }

  lemma PaddedLengthInBlocks(length: nat)
    ensures PaddedLength(length) % 64 == 0 && length + 9 <= PaddedLength(length) < length + 9 + 64
  {
    var n := length + 1 + ZeroCount(length);
    assert n % 64 == 56;
    assert (n + 8) % 64 == 0;
  }

  /** The padded length is the least multiple of a block that holds message, end mark and length. */
  lemma PaddedLengthLeast(length: nat, other: nat)
    requires other % 64 == 0 && other >= length + 9
    ensures other >= PaddedLength(length)
  {
    PaddedLengthInBlocks(length);
    var p, q := PaddedLength(length) / 64, other / 64;
    assert PaddedLength(length) == 64 * p && other == 64 * q;
  }

  /** Byte by byte: the message, a one bit, zeros, and the length in bits in the last eight bytes. */
  lemma PaddedBytes(m: seq<byte>)
    ensures var p := Padded(m);
            && |p| >= |m| + 9 && p[..|m|] == m && p[|m|] == 0x80
            && (forall i | |m| < i < |p| - 8 :: p[i] == 0)
            && FromBigEndian(p[|p| - 8..]) == |m| * 8 % TWO_64
  {
    PaddedSize(m);
    RepeatIsConstant<byte>(0, ZeroCount(|m|));
    EightBytesHold64Bits();
    BigEndianRoundTrip(BitLength(|m|), 8);
  }

  /** For lengths under 2^61 bytes the stored length is the true one, and the message can be read back. */
  function Unpadded(p: seq<byte>): seq<byte>
    requires |p| >= 8
  {
    var length := FromBigEndian(p[|p| - 8..]) / 8;
    if length <= |p| then p[..length] else []
  }

  lemma StoredLength(length: nat)
    requires length < 0x2000_0000_0000_0000
    ensures FromBigEndian(BigEndian(BitLength(length), 8)) == length * 8
  {
    EightBytesHold64Bits();
    BigEndianRoundTrip(BitLength(length), 8);
  }

  lemma UnpadUndoesPad(m: seq<byte>)
    requires |m| < 0x2000_0000_0000_0000
    ensures |Padded(m)| >= 8 && Unpadded(Padded(m)) == m
  {
    PaddedSize(m);
    StoredLength(|m|);
  }

  /** Padding is injective on messages of every length: a wrapped length still tells near lengths apart. */
  lemma PaddingInjective(a: seq<byte>, b: seq<byte>)
    requires Padded(a) == Padded(b)
    ensures a == b
  {
    PaddedSize(a);
    PaddedSize(b);
    EightBytesHold64Bits();
    BigEndianRoundTrip(BitLength(|a|), 8);
    BigEndianRoundTrip(BitLength(|b|), 8);
    SameBitLength(|a|, |b|);
  }

  lemma SameBitLength(x: nat, y: nat)
    requires BitLength(x) == BitLength(y) && PaddedLength(x) == PaddedLength(y)
    ensures x == y
  {
    assert -64 < x - y < 64;
    var p, q := x * 8 / TWO_64, y * 8 / TWO_64;
    assert x * 8 - y * 8 == (p - q) * TWO_64;
  }

  /** No padded message ends with another one, for messages under 2^61 bytes. */
  lemma PaddingSuffixFree(a: seq<byte>, b: seq<byte>, front: seq<byte>)
    requires |a| < 0x2000_0000_0000_0000 && |b| < 0x2000_0000_0000_0000
    requires Padded(b) == front + Padded(a)
    ensures a == b && front == []
  {
    PaddedSize(a);
    PaddedSize(b);
    StoredLength(|a|);
    StoredLength(|b|);
    var p := Padded(b);
    assert p[|p| - 8..] == Padded(a)[|Padded(a)| - 8..];
    assert |a| == |b|;
    assert front == [];
    PaddingInjective(a, b);
  }

  /** The padding loop. */
  method PadMessage(data: seq<byte>) returns (padded: seq<byte>)
    ensures padded == Padded(data)
    ensures |padded| % 64 == 0 && |padded| >= |data| + 9 && padded[..|data|] == data && padded[|data|] == 0x80
    ensures forall i | |data| < i < |padded| - 8 :: padded[i] == 0
    ensures FromBigEndian(padded[|padded| - 8..]) == |data| * 8 % TWO_64
  {
    var bitLength := |data| * 8 % TWO_64;
    padded := data + [0x80];
    ghost var zeros := 0;
    while |padded| % 64 != 56
      invariant zeros <= ZeroCount(|data|)
      invariant padded == data + [0x80] + Repeat<byte>(0, zeros)
      invariant |padded| == |data| + 1 + zeros
      decreases ZeroCount(|data|) - zeros
    {
      FirstStop(|data|, zeros);
      padded := padded + [0];
      zeros := zeros + 1;
    }
    FirstStop(|data|, zeros);
    padded := padded + BigEndian(bitLength, 8);
    PaddedBytes(data);
    PaddedSize(data);
    PaddedLengthInBlocks(|data|);
  }

  /** The first place at which the loop can stop. */
  lemma FirstStop(length: nat, zeros: nat)
    requires zeros <= ZeroCount(length)
    ensures (length + 1 + zeros) % 64 == 56 <==> zeros == ZeroCount(length)
  {
  }
}
