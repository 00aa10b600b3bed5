/** Where the constants of SHA-256 come from: roots of the first primes, sections 4.2.2 and 5.3.3 of FIPS 180-4. */
module Sha256Constants {
  import opened IntegerFacts
  import opened CompressionRounds
  import opened Sha256

  // ---------- Primes ----------

  ghost predicate IsPrime(n: nat) { n >= 2 && forall d | 2 <= d < n :: n % d != 0 }

  ghost predicate IsNextPrime(p: nat, q: nat) {
    p < q && IsPrime(q) && forall n | p < n < q :: !IsPrime(n)
  }

  /** None of the primes up to 17 divides `n` properly. */
  predicate Sieved(n: nat) {
    && n >= 2
    && (n <= 2 || n % 2 != 0) && (n <= 3 || n % 3 != 0) && (n <= 5 || n % 5 != 0) && (n <= 7 || n % 7 != 0)
    && (n <= 11 || n % 11 != 0) && (n <= 13 || n % 13 != 0) && (n <= 17 || n % 17 != 0)
  }

  lemma FactorOfFactor(n: nat, a: nat, b: nat)
    requires a > 0 && b > 0 && n % (a * b) == 0
    ensures n % a == 0
  {
    var q := n / (a * b);
    assert n == q * (a * b) == (q * b) * a;
    QuotientUnique(n, a, q * b, 0);
  }

  lemma DividedNotSieved(n: nat, p: nat)
    requires (p == 2 || p == 3 || p == 5 || p == 7 || p == 11 || p == 13 || p == 17) && p < n && n % p == 0
    ensures !Sieved(n)
  {
  }

  /** A number below 19 has one of the small primes as a factor. */
  lemma SmallFactor(n: nat, s: nat)
    requires 2 <= s <= 18 && n % s == 0 && s < n
    ensures !Sieved(n)
  {
    if s == 2 * (s / 2) {
      FactorOfFactor(n, 2, s / 2);
      DividedNotSieved(n, 2);
    } else if s == 3 * (s / 3) {
      FactorOfFactor(n, 3, s / 3);
      DividedNotSieved(n, 3);
    } else {
      DividedNotSieved(n, s);
    }
  }

  lemma LargeProduct(a: nat, b: nat)
    requires a >= 19 && b >= 19
    ensures a * b >= 361
  {
    assert a * b == (a - 19) * b + 19 * b;
  }

  lemma PrimeIsSieved(n: nat)
    requires IsPrime(n)
    ensures Sieved(n)
  {
  }

  /** A proper factor, with its cofactor, one of which is small. */
  lemma CompositeNotSieved(n: nat, d: nat, q: nat)
    requires n < 361 && 2 <= d < n && 2 <= q < n && n == q * d
    ensures !Sieved(n)
  {
    if d <= 18 {
      QuotientUnique(n, d, q, 0);
      SmallFactor(n, d);
    } else {
      if q >= 19 {
        LargeProduct(q, d);
      }
      QuotientUnique(n, q, d, 0);
      SmallFactor(n, q);
    }
  }

  lemma Cofactor(n: nat, d: nat) returns (q: nat)
    requires 2 <= d < n && n % d == 0
    ensures n == q * d && 2 <= q < n
  {
    q := n / d;
    assert n == q * d;
    assert d * q == (d - 1) * q + q;
    ProductAtLeast(d - 1, q);
  }

  /** Below 19 * 19 the sieve is exact. */
  lemma SieveIsExact(n: nat)
    requires n < 361
    ensures Sieved(n) <==> IsPrime(n)
  {
    if IsPrime(n) {
      PrimeIsSieved(n);
    } else if n >= 2 {
      var d :| 2 <= d < n && n % d == 0;
      var q := Cofactor(n, d);
      CompositeNotSieved(n, d, q);
    }
  }

  predicate NoneSieved(n: nat, end: nat)
    decreases end - n
  {
    n >= end || (!Sieved(n) && NoneSieved(n + 1, end))
  }

  lemma {:induction false} NoneSievedAt(n: nat, end: nat, x: nat)
    requires NoneSieved(n, end) && n <= x < end
    ensures !Sieved(x)
    decreases end - n
  {
    if n < x {
      NoneSievedAt(n + 1, end, x);
    }
  }

  lemma Next(p: nat, gap: nat, q: nat)
    requires gap == p + 1 <= q < 361 && Sieved(q) && NoneSieved(gap, q)
    ensures IsNextPrime(p, q)
  {
    SieveIsExact(q);
    forall n | p < n < q ensures !IsPrime(n) {
      NoneSievedAt(p + 1, q, n);
      SieveIsExact(n);
    }
  }

  function PrimeRow(row: nat): (ps: seq<nat>)
    ensures |ps| == 8
  {
    match row
    case 0 => [2, 3, 5, 7, 11, 13, 17, 19]
    case 1 => [23, 29, 31, 37, 41, 43, 47, 53]
    case 2 => [59, 61, 67, 71, 73, 79, 83, 89]
    case 3 => [97, 101, 103, 107, 109, 113, 127, 131]
    case 4 => [137, 139, 149, 151, 157, 163, 167, 173]
    case 5 => [179, 181, 191, 193, 197, 199, 211, 223]
    case 6 => [227, 229, 233, 239, 241, 251, 257, 263]
    case _ => [269, 271, 277, 281, 283, 293, 307, 311]
  }

  /** The first 64 primes. */
  function Primes(): (ps: seq<nat>)
    ensures |ps| == 64 && forall i | 0 <= i < 64 :: ps[i] == PrimeRow(i / 8)[i % 8]
  {
    seq(64, i requires 0 <= i < 64 => PrimeRow(i / 8)[i % 8])
  }

  lemma NextInRow0()
    ensures forall i | 0 <= i < 7 :: IsNextPrime(PrimeRow(0)[i], PrimeRow(0)[i + 1])
    ensures IsNextPrime(PrimeRow(0)[7], PrimeRow(1)[0])
  {
    Next(2, 3, 3);
    Next(3, 4, 5);
    Next(5, 6, 7);
    Next(7, 8, 11);
    Next(11, 12, 13);
    Next(13, 14, 17);
    Next(17, 18, 19);
    Next(19, 20, 23);
  }

  lemma NextInRow1()
    ensures forall i | 0 <= i < 7 :: IsNextPrime(PrimeRow(1)[i], PrimeRow(1)[i + 1])
    ensures IsNextPrime(PrimeRow(1)[7], PrimeRow(2)[0])
  {
    Next(23, 24, 29);
    Next(29, 30, 31);
    Next(31, 32, 37);
    Next(37, 38, 41);
    Next(41, 42, 43);
    Next(43, 44, 47);
    Next(47, 48, 53);
    Next(53, 54, 59);
  }

  lemma NextInRow2()
    ensures forall i | 0 <= i < 7 :: IsNextPrime(PrimeRow(2)[i], PrimeRow(2)[i + 1])
    ensures IsNextPrime(PrimeRow(2)[7], PrimeRow(3)[0])
  {
    Next(59, 60, 61);
    Next(61, 62, 67);
    Next(67, 68, 71);
    Next(71, 72, 73);
    Next(73, 74, 79);
    Next(79, 80, 83);
    Next(83, 84, 89);
    Next(89, 90, 97);
  }

  lemma NextInRow3()
    ensures forall i | 0 <= i < 7 :: IsNextPrime(PrimeRow(3)[i], PrimeRow(3)[i + 1])
    ensures IsNextPrime(PrimeRow(3)[7], PrimeRow(4)[0])
  {
    Next(97, 98, 101);
    Next(101, 102, 103);
    Next(103, 104, 107);
    Next(107, 108, 109);
    Next(109, 110, 113);
    Next(113, 114, 127);
    Next(127, 128, 131);
    Next(131, 132, 137);
  }

  lemma NextInRow4()
    ensures forall i | 0 <= i < 7 :: IsNextPrime(PrimeRow(4)[i], PrimeRow(4)[i + 1])
    ensures IsNextPrime(PrimeRow(4)[7], PrimeRow(5)[0])
  {
    Next(137, 138, 139);
    Next(139, 140, 149);
    Next(149, 150, 151);
    Next(151, 152, 157);
    Next(157, 158, 163);
    Next(163, 164, 167);
    Next(167, 168, 173);
    Next(173, 174, 179);
  }

  lemma NextInRow5()
    ensures forall i | 0 <= i < 7 :: IsNextPrime(PrimeRow(5)[i], PrimeRow(5)[i + 1])
    ensures IsNextPrime(PrimeRow(5)[7], PrimeRow(6)[0])
  {
    Next(179, 180, 181);
    Next(181, 182, 191);
    Next(191, 192, 193);
    Next(193, 194, 197);
    Next(197, 198, 199);
    Next(199, 200, 211);
    Next(211, 212, 223);
    Next(223, 224, 227);
  }

  lemma NextInRow6()
    ensures forall i | 0 <= i < 7 :: IsNextPrime(PrimeRow(6)[i], PrimeRow(6)[i + 1])
    ensures IsNextPrime(PrimeRow(6)[7], PrimeRow(7)[0])
  {
    Next(227, 228, 229);
    Next(229, 230, 233);
    Next(233, 234, 239);
    Next(239, 240, 241);
    Next(241, 242, 251);
    Next(251, 252, 257);
    Next(257, 258, 263);
    Next(263, 264, 269);
  }

  lemma NextInRow7()
    ensures forall i | 0 <= i < 7 :: IsNextPrime(PrimeRow(7)[i], PrimeRow(7)[i + 1])
  {
    Next(269, 270, 271);
    Next(271, 272, 277);
    Next(277, 278, 281);
    Next(281, 282, 283);
    Next(283, 284, 293);
    Next(293, 294, 307);
    Next(307, 308, 311);
  }

  lemma NextOf(row: nat, i: nat)
    requires row < 8 && i < 7
    ensures IsNextPrime(PrimeRow(row)[i], PrimeRow(row)[i + 1])
  {
    match row
    case 0 => NextInRow0();
    case 1 => NextInRow1();
    case 2 => NextInRow2();
    case 3 => NextInRow3();
    case 4 => NextInRow4();
    case 5 => NextInRow5();
    case 6 => NextInRow6();
    case 7 => NextInRow7();
  }

  lemma NextRow(row: nat)
    requires row < 7
    ensures IsNextPrime(PrimeRow(row)[7], PrimeRow(row + 1)[0])
  {
    match row
    case 0 => NextInRow0();
    case 1 => NextInRow1();
    case 2 => NextInRow2();
    case 3 => NextInRow3();
    case 4 => NextInRow4();
    case 5 => NextInRow5();
    case 6 => NextInRow6();
  }

  lemma NextPrime(i: nat)
    requires i < 63
    ensures IsNextPrime(Primes()[i], Primes()[i + 1])
  {
    var row, column := i / 8, i % 8;
    if column < 7 {
      QuotientUnique(i + 1, 8, row, column + 1);
      NextOf(row, column);
    } else {
      QuotientUnique(i + 1, 8, row + 1, 0);
      NextRow(row);
    }
  }

  /** The list starts with 2 and skips no prime. */
  lemma PrimesInOrder()
    ensures Primes()[0] == 2 && forall i | 0 <= i < 63 :: IsNextPrime(Primes()[i], Primes()[i + 1])
  {
    forall i | 0 <= i < 63 ensures IsNextPrime(Primes()[i], Primes()[i + 1]) {
      NextPrime(i);
    }
  }

  // ---------- Roots ----------

  /** `root`, read with 32 bits behind the point, is the square root of `p` rounded down. */
  predicate IsSquareRoot(root: nat, p: nat) {
    root * root <= p * TWO_64 < (root + 1) * (root + 1)
  }

  predicate IsCubeRoot(root: nat, p: nat) {
    root * root * root <= p * TWO_64 * TWO_32 < (root + 1) * (root + 1) * (root + 1)
  }

  /** `k` is the first 32 bits behind the point of the square root of `p`. */
  ghost predicate FromSquareRoot(k: Word, p: nat) {
    exists whole: nat :: IsSquareRoot(whole * TWO_32 + k as nat, p)
  }

  ghost predicate FromCubeRoot(k: Word, p: nat) {
    exists whole: nat :: IsCubeRoot(whole * TWO_32 + k as nat, p)
  }

  lemma CubeRoot(k: Word, p: nat, whole: nat)
    requires IsCubeRoot(whole * TWO_32 + k as nat, p)
    ensures FromCubeRoot(k, p)
  {
  }

  lemma SquareRoot(k: Word, p: nat, whole: nat)
    requires IsSquareRoot(whole * TWO_32 + k as nat, p)
    ensures FromSquareRoot(k, p)
  {
  }

  lemma CubeRootsInRow0()
    ensures forall i | 0 <= i < 8 :: FromCubeRoot(ConstantRow(0)[i], PrimeRow(0)[i])
  {
    CubeRoot(0x428a2f98, 2, 1);
    CubeRoot(0x71374491, 3, 1);
    CubeRoot(0xb5c0fbcf, 5, 1);
    CubeRoot(0xe9b5dba5, 7, 1);
    CubeRoot(0x3956c25b, 11, 2);
    CubeRoot(0x59f111f1, 13, 2);
    CubeRoot(0x923f82a4, 17, 2);
    CubeRoot(0xab1c5ed5, 19, 2);
  }

  lemma CubeRootsInRow1()
    ensures forall i | 0 <= i < 8 :: FromCubeRoot(ConstantRow(1)[i], PrimeRow(1)[i])
  {
    CubeRoot(0xd807aa98, 23, 2);
    CubeRoot(0x12835b01, 29, 3);
    CubeRoot(0x243185be, 31, 3);
    CubeRoot(0x550c7dc3, 37, 3);
    CubeRoot(0x72be5d74, 41, 3);
    CubeRoot(0x80deb1fe, 43, 3);
    CubeRoot(0x9bdc06a7, 47, 3);
    CubeRoot(0xc19bf174, 53, 3);
  }

  lemma CubeRootsInRow2()
    ensures forall i | 0 <= i < 8 :: FromCubeRoot(ConstantRow(2)[i], PrimeRow(2)[i])
  {
    CubeRoot(0xe49b69c1, 59, 3);
    CubeRoot(0xefbe4786, 61, 3);
    CubeRoot(0x0fc19dc6, 67, 4);
    CubeRoot(0x240ca1cc, 71, 4);
    CubeRoot(0x2de92c6f, 73, 4);
    CubeRoot(0x4a7484aa, 79, 4);
    CubeRoot(0x5cb0a9dc, 83, 4);
    CubeRoot(0x76f988da, 89, 4);
  }

  lemma CubeRootsInRow3()
    ensures forall i | 0 <= i < 8 :: FromCubeRoot(ConstantRow(3)[i], PrimeRow(3)[i])
  {
    CubeRoot(0x983e5152, 97, 4);
    CubeRoot(0xa831c66d, 101, 4);
    CubeRoot(0xb00327c8, 103, 4);
    CubeRoot(0xbf597fc7, 107, 4);
    CubeRoot(0xc6e00bf3, 109, 4);
    CubeRoot(0xd5a79147, 113, 4);
    CubeRoot(0x06ca6351, 127, 5);
    CubeRoot(0x14292967, 131, 5);
  }

  lemma CubeRootsInRow4()
    ensures forall i | 0 <= i < 8 :: FromCubeRoot(ConstantRow(4)[i], PrimeRow(4)[i])
  {
    CubeRoot(0x27b70a85, 137, 5);
    CubeRoot(0x2e1b2138, 139, 5);
    CubeRoot(0x4d2c6dfc, 149, 5);
    CubeRoot(0x53380d13, 151, 5);
    CubeRoot(0x650a7354, 157, 5);
    CubeRoot(0x766a0abb, 163, 5);
    CubeRoot(0x81c2c92e, 167, 5);
    CubeRoot(0x92722c85, 173, 5);
  }

  lemma CubeRootsInRow5()
    ensures forall i | 0 <= i < 8 :: FromCubeRoot(ConstantRow(5)[i], PrimeRow(5)[i])
  {
    CubeRoot(0xa2bfe8a1, 179, 5);
    CubeRoot(0xa81a664b, 181, 5);
    CubeRoot(0xc24b8b70, 191, 5);
    CubeRoot(0xc76c51a3, 193, 5);
    CubeRoot(0xd192e819, 197, 5);
    CubeRoot(0xd6990624, 199, 5);
    CubeRoot(0xf40e3585, 211, 5);
    CubeRoot(0x106aa070, 223, 6);
  }

  lemma CubeRootsInRow6()
    ensures forall i | 0 <= i < 8 :: FromCubeRoot(ConstantRow(6)[i], PrimeRow(6)[i])
  {
    CubeRoot(0x19a4c116, 227, 6);
    CubeRoot(0x1e376c08, 229, 6);
    CubeRoot(0x2748774c, 233, 6);
    CubeRoot(0x34b0bcb5, 239, 6);
    CubeRoot(0x391c0cb3, 241, 6);
    CubeRoot(0x4ed8aa4a, 251, 6);
    CubeRoot(0x5b9cca4f, 257, 6);
    CubeRoot(0x682e6ff3, 263, 6);
  }

  lemma CubeRootsInRow7()
    ensures forall i | 0 <= i < 8 :: FromCubeRoot(ConstantRow(7)[i], PrimeRow(7)[i])
  {
    CubeRoot(0x748f82ee, 269, 6);
    CubeRoot(0x78a5636f, 271, 6);
    CubeRoot(0x84c87814, 277, 6);
    CubeRoot(0x8cc70208, 281, 6);
    CubeRoot(0x90befffa, 283, 6);
    CubeRoot(0xa4506ceb, 293, 6);
    CubeRoot(0xbef9a3f7, 307, 6);
    CubeRoot(0xc67178f2, 311, 6);
  }

  lemma CubeRootOf(row: nat, i: nat)
    requires row < 8 && i < 8
    ensures FromCubeRoot(ConstantRow(row)[i], PrimeRow(row)[i])
  {
    match row
    case 0 => CubeRootsInRow0();
    case 1 => CubeRootsInRow1();
    case 2 => CubeRootsInRow2();
    case 3 => CubeRootsInRow3();
    case 4 => CubeRootsInRow4();
    case 5 => CubeRootsInRow5();
    case 6 => CubeRootsInRow6();
    case 7 => CubeRootsInRow7();
  }

  /** The round constants come from the cube roots of the first 64 primes, in order. */
  lemma RoundConstantsAreCubeRoots()
    ensures forall i | 0 <= i < 64 :: FromCubeRoot(RoundConstants()[i], Primes()[i])
  {
    forall i | 0 <= i < 64 ensures FromCubeRoot(RoundConstants()[i], Primes()[i]) {
      CubeRootOf(i / 8, i % 8);
    }
  }

  /** The initial hash comes from the square roots of the first eight. */
  lemma InitialHashIsSquareRoots()
    ensures forall i | 0 <= i < 8 :: FromSquareRoot(Listed(InitialHash())[i], Primes()[i])
  {
    SquareRoot(0x6a09e667, 2, 1);
    SquareRoot(0xbb67ae85, 3, 1);
    SquareRoot(0x3c6ef372, 5, 2);
    SquareRoot(0xa54ff53a, 7, 2);
    SquareRoot(0x510e527f, 11, 3);
    SquareRoot(0x9b05688c, 13, 3);
    SquareRoot(0x1f83d9ab, 17, 4);
    SquareRoot(0x5be0cd19, 19, 4);
    assert forall i | 0 <= i < 8 :: Primes()[i] == PrimeRow(0)[i];
  }
}
