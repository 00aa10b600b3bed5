/** The logical functions of SHA-256 on 32 bits, section 4.1.2 of FIPS 180-4, and what each does to every bit. */
module WordBits {

  function Choose(x: bv32, y: bv32, z: bv32): bv32 { (x & y) ^ (!x & z) }

  function Majority(x: bv32, y: bv32, z: bv32): bv32 { (x & y) ^ (x & z) ^ (y & z) }

  function UpperSigma0(x: bv32): bv32 { x.RotateRight(2) ^ x.RotateRight(13) ^ x.RotateRight(22) }

  function UpperSigma1(x: bv32): bv32 { x.RotateRight(6) ^ x.RotateRight(11) ^ x.RotateRight(25) }

  function LowerSigma0(x: bv32): bv32 { x.RotateRight(7) ^ x.RotateRight(18) ^ (x >> 3) }

  function LowerSigma1(x: bv32): bv32 { x.RotateRight(17) ^ x.RotateRight(19) ^ (x >> 10) }

  /** Bit `n`, counted from the low end; sums of positions wrap around at 32. */
  predicate Bit(x: bv32, n: bv5) { (x >> n) & 1 == 1 }

  lemma RawChoose(x: bv32, y: bv32, z: bv32, n: bv5)
    ensures Bit(x, n) ==> Bit(Choose(x, y, z), n) == Bit(y, n)
    ensures !Bit(x, n) ==> Bit(Choose(x, y, z), n) == Bit(z, n)
  {
  }

  lemma RawMajority(x: bv32, y: bv32, z: bv32, n: bv5)
    ensures Bit(x, n) == Bit(y, n) ==> Bit(Majority(x, y, z), n) == Bit(x, n)
    ensures Bit(x, n) == Bit(z, n) ==> Bit(Majority(x, y, z), n) == Bit(x, n)
    ensures Bit(y, n) == Bit(z, n) ==> Bit(Majority(x, y, z), n) == Bit(y, n)
  {
  }

  lemma SumOfThree(a: bv32, b: bv32, c: bv32, n: bv5)
    ensures Bit(a ^ b ^ c, n) == (Bit(a, n) != (Bit(b, n) != Bit(c, n)))
  {
  }

  // Each bit of the four functions below is the sum of three bits of the word, without carry. A rotation takes
  // them around the end of the word; a shift brings in zeros.

  lemma TakenUpperSigma0(x: bv32, n: bv5)
    ensures Bit(x.RotateRight(2), n) == Bit(x, n + 2)
    ensures Bit(x.RotateRight(13), n) == Bit(x, n + 13)
    ensures Bit(x.RotateRight(22), n) == (Bit(x, n + 22))
  {
  }

  lemma RawUpperSigma0(x: bv32, n: bv5)
    ensures Bit(UpperSigma0(x), n) == (Bit(x, n + 2) != (Bit(x, n + 13) != (Bit(x, n + 22))))
  {
    TakenUpperSigma0(x, n);
    SumOfThree(x.RotateRight(2), x.RotateRight(13), x.RotateRight(22), n);
  }

  lemma TakenUpperSigma1(x: bv32, n: bv5)
    ensures Bit(x.RotateRight(6), n) == Bit(x, n + 6)
    ensures Bit(x.RotateRight(11), n) == Bit(x, n + 11)
    ensures Bit(x.RotateRight(25), n) == (Bit(x, n + 25))
  {
  }

  lemma RawUpperSigma1(x: bv32, n: bv5)
    ensures Bit(UpperSigma1(x), n) == (Bit(x, n + 6) != (Bit(x, n + 11) != (Bit(x, n + 25))))
  {
    TakenUpperSigma1(x, n);
    SumOfThree(x.RotateRight(6), x.RotateRight(11), x.RotateRight(25), n);
  }

  lemma TakenLowerSigma0(x: bv32, n: bv5)
    ensures Bit(x.RotateRight(7), n) == Bit(x, n + 7)
    ensures Bit(x.RotateRight(18), n) == Bit(x, n + 18)
    ensures Bit(x >> 3, n) == (n < 29 && Bit(x, n + 3))
  {
  }

  lemma RawLowerSigma0(x: bv32, n: bv5)
    ensures Bit(LowerSigma0(x), n) == (Bit(x, n + 7) != (Bit(x, n + 18) != (n < 29 && Bit(x, n + 3))))
  {
    TakenLowerSigma0(x, n);
    SumOfThree(x.RotateRight(7), x.RotateRight(18), x >> 3, n);
  }

  lemma TakenLowerSigma1(x: bv32, n: bv5)
    ensures Bit(x.RotateRight(17), n) == Bit(x, n + 17)
    ensures Bit(x.RotateRight(19), n) == Bit(x, n + 19)
    ensures Bit(x >> 10, n) == (n < 22 && Bit(x, n + 10))
  {
  }

  lemma RawLowerSigma1(x: bv32, n: bv5)
    ensures Bit(LowerSigma1(x), n) == (Bit(x, n + 17) != (Bit(x, n + 19) != (n < 22 && Bit(x, n + 10))))
  {
    TakenLowerSigma1(x, n);
    SumOfThree(x.RotateRight(17), x.RotateRight(19), x >> 10, n);
  }
}
