/** What the functions and constants of SHA-256 are, by sections 4.1.2, 4.2.2 and 5.3.3 of
    FIPS 180-4: bit by bit, and as digits of roots. */
module Sha256Meaning {
  import opened Bits
  import opened Sha256
  import opened Fermat
  import opened Primality

  // ---- bits ------------------------------------------------------------------

  /** Bit `i`, counted from the least significant. */
  function Bit(x: int, i: nat): (b: int)
    ensures 0 <= b <= 1
    decreases i
  {
    if i == 0 then x % 2 else Bit(x / 2, i - 1)
  }

  /** It is the digit of 2^i. */
  lemma {:induction false} BitIsDigit(x: int, i: nat)
    ensures Bit(x, i) == x / Pow2(i) % 2
    decreases i
  {
    if i > 0 {
      BitIsDigit(x / 2, i - 1);
      HalfQuotient(x, Pow2(i - 1));
    }
  }

  lemma HalfQuotient(x: int, m: int)
    requires m >= 1
    ensures x / (2 * m) == x / 2 / m
  {
    var q, r := x / 2 / m, x / 2 % m;
    assert x == (2 * m) * q + (2 * r + x % 2);
    QuotientUnique(x, 2 * m, q, 2 * r + x % 2);
  }

  lemma QuotientUnique(x: int, m: int, q: int, r: int)
    requires m >= 1 && x == m * q + r && 0 <= r < m
    ensures x / m == q
  {
    var d := q - x / m;
    assert m * d == x % m - r;
    assert d >= 1 ==> m * d >= m;
    assert d <= -1 ==> m * d <= -m;
  }

  /** A word is its 32 bits. */
  lemma {:induction false} SameBits(x: nat, y: nat, w: nat)
    requires x < Pow2(w) && y < Pow2(w) && forall i :: 0 <= i < w ==> Bit(x, i) == Bit(y, i)
    ensures x == y
  {
    if w > 0 {
      assert Bit(x, 0) == Bit(y, 0);
      forall i | 0 <= i < w - 1 ensures Bit(x / 2, i) == Bit(y / 2, i) { assert Bit(x, i + 1) == Bit(y, i + 1); }
      SameBits(x / 2, y / 2, w - 1);
    }
  }

  lemma {:induction false} OperatorBits(w: nat, x: int, y: int, i: nat)
    requires i < w
    ensures Bit(And(w, x, y), i) == if Bit(x, i) == 1 && Bit(y, i) == 1 then 1 else 0
    ensures Bit(Or(w, x, y), i) == if Bit(x, i) == 1 || Bit(y, i) == 1 then 1 else 0
    ensures Bit(Xor(w, x, y), i) == if Bit(x, i) == Bit(y, i) then 0 else 1
  {
    var b, rest := x % 2 * (y % 2), And(w - 1, x / 2, y / 2);
    BitOfSum(b, rest, i);
    BitOfSum((x + y) % 2, Xor(w - 1, x / 2, y / 2), i);
    BitOfSum(if x % 2 == 1 || y % 2 == 1 then 1 else 0, Or(w - 1, x / 2, y / 2), i);
    BitOfSum(x % 2, x / 2, i);
    BitOfSum(y % 2, y / 2, i);
    if i > 0 { OperatorBits(w - 1, x / 2, y / 2, i - 1); }
    hide And, Or, Xor, Bit;
  }

  lemma BitOfSum(b: int, rest: int, i: nat)
    requires 0 <= b <= 1
    ensures Bit(b + 2 * rest, i) == if i == 0 then b else Bit(rest, i - 1)
  {
    assert (b + 2 * rest) / 2 == rest;
  }

  lemma WordBits(x: Word, y: Word, i: nat)
    requires i < 32
    ensures Bit(And32(x, y), i) == if Bit(x, i) == 1 && Bit(y, i) == 1 then 1 else 0
    ensures Bit(Or32(x, y), i) == if Bit(x, i) == 1 || Bit(y, i) == 1 then 1 else 0
    ensures Bit(Xor32(x, y), i) == if Bit(x, i) == Bit(y, i) then 0 else 1
  {
    hide And, Or, Xor, Bit;
    OperatorBits(32, x, y, i);
  }

  lemma {:induction false} NotBits(x: nat, w: nat, i: nat)
    requires i < w && x < Pow2(w)
    ensures Bit(Pow2(w) - 1 - x, i) == 1 - Bit(x, i)
  {
    if i > 0 {
      assert (Pow2(w) - 1 - x) / 2 == Pow2(w - 1) - 1 - x / 2;
      NotBits(x / 2, w - 1, i - 1);
    }
  }

  lemma {:induction false} ShiftRightBits(x: Word, n: nat, i: nat)
    ensures Bit(Shr32(x, n), i) == Bit(x, i + n)
  {
    if n > 0 {
      ShiftRightBits(x / 2, n - 1, i);
      assert Bit(x, i + n) == Bit(x / 2, i + n - 1);
    }
  }

  lemma {:induction false} NoHighBits(x: nat, w: nat, i: nat)
    requires x < Pow2(w) && w <= i
    ensures Bit(x, i) == 0
  {
    if w == 0 { ZeroBits(i); } else { NoHighBits(x / 2, w - 1, i - 1); }
  }

  lemma {:induction false} ZeroBits(i: nat)
    ensures Bit(0, i) == 0
  {
    if i > 0 { ZeroBits(i - 1); }
  }

  lemma {:induction false} LowBits(x: nat, w: nat, i: nat)
    requires i < w
    ensures Bit(x % Pow2(w), i) == Bit(x, i)
  {
    var y := x % Pow2(w);
    HalfRemainder(x, Pow2(w - 1));
    assert y == x % 2 + 2 * ((x / 2) % Pow2(w - 1));
    if i > 0 { LowBits(x / 2, w - 1, i - 1); }
  }

  lemma {:induction false} ShiftLeftBits(x: Word, n: nat, i: nat)
    requires i < 32
    ensures Bit(Shl32(x, n), i) == if i < n then 0 else Bit(x, i - n)
    decreases n
  {
    if n > 0 {
      var y := (2 * x) % 0x1_0000_0000;
      assert Shl32(x, n) == Shl32(y, n - 1);
      ShiftLeftBits(y, n - 1, i);
      hide Shl32;
      if i >= n - 1 {
        Pow2Values();
        LowBits(2 * x, 32, i - (n - 1));
        BitOfSum(0, x, i - (n - 1));
        hide Bit, Pow2;
      }
    }
  }

  /** `ROTR` moves bit i + n to bit i, modulo 32. */
  lemma RotateBits(x: Word, n: nat, i: nat)
    requires 0 < n < 32 && i < 32
    ensures Bit(Rotr(x, n), i) == Bit(x, (i + n) % 32)
  {
    hide Bit, Shr32, Shl32, Or32;
    ShiftRightBits(x, n, i);
    ShiftLeftBits(x, 32 - n, i);
    WordBits(Shr32(x, n), Shl32(x, 32 - n), i);
    if i + n >= 32 {
      NoBitsBeyond(x, i + n);
      assert (i + n) % 32 == i - (32 - n);
    } else {
      assert (i + n) % 32 == i + n;
    }
  }

  lemma NoBitsBeyond(x: Word, i: nat)
    requires i >= 32
    ensures Bit(x, i) == 0
  {
    Pow2Values();
    NoHighBits(x, 32, i);
  }

  /** The sum of three bits modulo 2. */
  lemma ThreeBits(x: Word, y: Word, z: Word, i: nat)
    requires i < 32
    ensures Bit(Xor3(x, y, z), i) == (Bit(x, i) + Bit(y, i) + Bit(z, i)) % 2
  {
    hide Bit, Xor32;
    WordBits(x, y, i);
    WordBits(Xor32(x, y), z, i);
  }

  /** Equations (4.4) to (4.7). */
  lemma SigmaBits(x: Word, i: nat)
    requires i < 32
    ensures Bit(BigSigma0(x), i) == (Bit(x, (i + 2) % 32) + Bit(x, (i + 13) % 32) + Bit(x, (i + 22) % 32)) % 2
    ensures Bit(BigSigma1(x), i) == (Bit(x, (i + 6) % 32) + Bit(x, (i + 11) % 32) + Bit(x, (i + 25) % 32)) % 2
    ensures Bit(SmallSigma0(x), i) == (Bit(x, (i + 7) % 32) + Bit(x, (i + 18) % 32) + Bit(x, i + 3)) % 2
    ensures Bit(SmallSigma1(x), i) == (Bit(x, (i + 17) % 32) + Bit(x, (i + 19) % 32) + Bit(x, i + 10)) % 2
  {
    hide Bit, Rotr, Shr32, Xor3;
    RotateBits(x, 2, i); RotateBits(x, 13, i); RotateBits(x, 22, i);
    RotateBits(x, 6, i); RotateBits(x, 11, i); RotateBits(x, 25, i);
    RotateBits(x, 7, i); RotateBits(x, 18, i); ShiftRightBits(x, 3, i);
    RotateBits(x, 17, i); RotateBits(x, 19, i); ShiftRightBits(x, 10, i);
    ThreeBits(Rotr(x, 2), Rotr(x, 13), Rotr(x, 22), i);
    ThreeBits(Rotr(x, 6), Rotr(x, 11), Rotr(x, 25), i);
    ThreeBits(Rotr(x, 7), Rotr(x, 18), Shr32(x, 3), i);
    ThreeBits(Rotr(x, 17), Rotr(x, 19), Shr32(x, 10), i);
  }

  /** Equations (4.2) and (4.3): a choice by the first word, and a majority. */
  lemma ChoiceAndMajorityBits(x: Word, y: Word, z: Word, i: nat)
    requires i < 32
    ensures Bit(Ch(x, y, z), i) == if Bit(x, i) == 1 then Bit(y, i) else Bit(z, i)
    ensures Bit(Maj(x, y, z), i) == if Bit(x, i) + Bit(y, i) + Bit(z, i) >= 2 then 1 else 0
  {
    hide Bit, And32, Xor32, Xor3;
    Pow2Values();
    NotBits(x, 32, i);
    WordBits(x, y, i);
    WordBits(Not32(x), z, i);
    WordBits(And32(x, y), And32(Not32(x), z), i);
    WordBits(x, z, i);
    WordBits(y, z, i);
    ThreeBits(And32(x, y), And32(x, z), And32(y, z), i);
  }

  /** Byte `j` is the digit of 256^j. */
  lemma {:induction false} OctetIsDigit(v: nat, j: nat)
    ensures Octet(v, j) == v / Pow2(8 * j) % 0x100
  {
    if j > 0 {
      OctetIsDigit(v / 0x100, j - 1);
      Pow2Values();
      Pow2Sum(8, 8 * (j - 1));
      QuotientTwice(v, 0x100, Pow2(8 * (j - 1)));
    }
  }

  lemma QuotientTwice(x: nat, a: nat, b: nat)
    requires a >= 1 && b >= 1
    ensures x / (a * b) == x / a / b
  {
    var y, s := x / a, x % a;
    var q, r := y / b, y % b;
    SameMultiple(a, b, q);
    TwoDigits(a, b, r, s);
    assert y == b * q + r;
    assert a * y == a * (b * q) + a * r;
    QuotientUnique(x, a * b, q, a * r + s);
  }

  lemma SameMultiple(a: int, b: int, q: int)
    ensures a * (b * q) == (a * b) * q
  {
  }

  lemma TwoDigits(a: int, b: int, r: int, s: int)
    requires 0 <= r < b && 0 <= s < a
    ensures 0 <= a * r + s < a * b
  {
    assert a * (b - 1 - r) >= 0;
    assert a * (b - 1 - r) == a * b - a - a * r;
  }

  // ---- constants -------------------------------------------------------------

  /** The first sixty-four primes, eight to a row. */
  function PrimeRow(row: nat): (p: seq<nat>)
    requires row < 8
    ensures |p| == 8
  {
    match row
    case 0 => [2, 3, 5, 7, 11, 13, 17, 19]
    case 1 => [23, 29, 31, 37, 41, 43, 47, 53]
    case 2 => [59, 61, 67, 71, 73, 79, 83, 89]
    case 3 => [97, 101, 103, 107, 109, 113, 127, 131]
    case 4 => [137, 139, 149, 151, 157, 163, 167, 173]
    case 5 => [179, 181, 191, 193, 197, 199, 211, 223]
    case 6 => [227, 229, 233, 239, 241, 251, 257, 263]
    case _ => [269, 271, 277, 281, 283, 293, 307, 311]
  }

  lemma PrimeBelow324(p: nat)
    requires 18 < p < 324
    requires p % 2 != 0 && p % 3 != 0 && p % 4 != 0 && p % 5 != 0 && p % 6 != 0 && p % 7 != 0 && p % 8 != 0 && p % 9 != 0
    requires p % 10 != 0 && p % 11 != 0 && p % 12 != 0 && p % 13 != 0 && p % 14 != 0 && p % 15 != 0 && p % 16 != 0 && p % 17 != 0
    ensures IsPrime(p)
  {
    assert NoDivisorFrom(p, 18); assert NoDivisorFrom(p, 17); assert NoDivisorFrom(p, 16); assert NoDivisorFrom(p, 15); assert NoDivisorFrom(p, 14); assert NoDivisorFrom(p, 13); assert NoDivisorFrom(p, 12); assert NoDivisorFrom(p, 11); assert NoDivisorFrom(p, 10);
    assert NoDivisorFrom(p, 9); assert NoDivisorFrom(p, 8); assert NoDivisorFrom(p, 7); assert NoDivisorFrom(p, 6); assert NoDivisorFrom(p, 5); assert NoDivisorFrom(p, 4); assert NoDivisorFrom(p, 3);
    hide NoDivisorFrom, IsPrime;
    PrimeByTrial(p);
  }

  ghost predicate ArePrimes(p: seq<nat>) { forall i :: 0 <= i < |p| ==> IsPrime(p[i]) }

  lemma Primes0()
    ensures ArePrimes(PrimeRow(0))
  {
    hide IsPrime;
    PrimeByTrial(2); PrimeByTrial(3); PrimeByTrial(5); PrimeByTrial(7);
    PrimeByTrial(11); PrimeByTrial(13); PrimeByTrial(17); PrimeByTrial(19);
  }

  lemma Primes1()
    ensures ArePrimes(PrimeRow(1))
  {
    hide IsPrime;
    PrimeByTrial(23); PrimeByTrial(29); PrimeByTrial(31); PrimeByTrial(37);
    PrimeByTrial(41); PrimeByTrial(43); PrimeByTrial(47); PrimeByTrial(53);
  }

  lemma Primes2()
    ensures ArePrimes(PrimeRow(2))
  {
    hide IsPrime;
    PrimeByTrial(59); PrimeByTrial(61); PrimeByTrial(67); PrimeByTrial(71);
    PrimeByTrial(73); PrimeByTrial(79); PrimeByTrial(83); PrimeByTrial(89);
  }

  lemma Primes3()
    ensures ArePrimes(PrimeRow(3))
  {
    hide IsPrime;
    PrimeByTrial(97); PrimeBelow324(101); PrimeBelow324(103); PrimeBelow324(107);
    PrimeBelow324(109); PrimeBelow324(113); PrimeBelow324(127); PrimeBelow324(131);
  }

  lemma Primes4()
    ensures ArePrimes(PrimeRow(4))
  {
    hide IsPrime;
    PrimeBelow324(137); PrimeBelow324(139); PrimeBelow324(149); PrimeBelow324(151);
    PrimeBelow324(157); PrimeBelow324(163); PrimeBelow324(167); PrimeBelow324(173);
  }

  lemma Primes5()
    ensures ArePrimes(PrimeRow(5))
  {
    hide IsPrime;
    PrimeBelow324(179); PrimeBelow324(181); PrimeBelow324(191); PrimeBelow324(193);
    PrimeBelow324(197); PrimeBelow324(199); PrimeBelow324(211); PrimeBelow324(223);
  }

  lemma Primes6()
    ensures ArePrimes(PrimeRow(6))
  {
    hide IsPrime;
    PrimeBelow324(227); PrimeBelow324(229); PrimeBelow324(233); PrimeBelow324(239);
    PrimeBelow324(241); PrimeBelow324(251); PrimeBelow324(257); PrimeBelow324(263);
  }

  lemma Primes7()
    ensures ArePrimes(PrimeRow(7))
  {
    hide IsPrime;
    PrimeBelow324(269); PrimeBelow324(271); PrimeBelow324(277); PrimeBelow324(281);
    PrimeBelow324(283); PrimeBelow324(293); PrimeBelow324(307); PrimeBelow324(311);
  }

  /** The rows hold prime numbers, in ascending order. */
  lemma RowsArePrimes(row: nat)
    requires row < 8
    ensures ArePrimes(PrimeRow(row))
    ensures forall i :: 0 <= i < 7 ==> PrimeRow(row)[i] < PrimeRow(row)[i + 1]
    ensures row < 7 ==> PrimeRow(row)[7] < PrimeRow(row + 1)[0]
  {
    hide ArePrimes;
    match row
    case 0 => Primes0();
    case 1 => Primes1();
    case 2 => Primes2();
    case 3 => Primes3();
    case 4 => Primes4();
    case 5 => Primes5();
    case 6 => Primes6();
    case _ => Primes7();
  }

  /** `k` are the first 32 bits of the fractional part of the cube root of p. */
  predicate CubeRootBits(p: nat, whole: nat, k: Word) {
    var r := 0x1_0000_0000 * whole + k;
    r * r * r <= 0x1_0000_0000 * 0x1_0000_0000 * 0x1_0000_0000 * p < (r + 1) * (r + 1) * (r + 1)
  }

  predicate SquareRootBits(p: nat, whole: nat, h: Word) {
    var r := 0x1_0000_0000 * whole + h;
    r * r <= 0x1_0000_0000 * 0x1_0000_0000 * p < (r + 1) * (r + 1)
  }

  ghost predicate CubeRoots(p: seq<nat>, k: seq<Word>) {
    |p| == |k| && forall i :: 0 <= i < |p| ==> CubeRoot(p[i], k[i])
  }

  ghost predicate CubeRoot(p: nat, k: Word) { exists whole: nat :: CubeRootBits(p, whole, k) }

  ghost predicate SquareRoot(p: nat, h: Word) { exists whole: nat :: SquareRootBits(p, whole, h) }

  lemma CubeRootOf(p: nat, whole: nat, k: Word)
    requires CubeRootBits(p, whole, k)
    ensures CubeRoot(p, k)
  {
  }

  lemma SquareRootOf(p: nat, whole: nat, h: Word)
    requires SquareRootBits(p, whole, h)
    ensures SquareRoot(p, h)
  {
  }

  lemma Row0()
    ensures CubeRoots(PrimeRow(0), KRow(0))
  {
    hide CubeRoot;
    CubeRootOf(2, 1, 0x428a2f98);
    CubeRootOf(3, 1, 0x71374491);
    CubeRootOf(5, 1, 0xb5c0fbcf);
    CubeRootOf(7, 1, 0xe9b5dba5);
    CubeRootOf(11, 2, 0x3956c25b);
    CubeRootOf(13, 2, 0x59f111f1);
    CubeRootOf(17, 2, 0x923f82a4);
    CubeRootOf(19, 2, 0xab1c5ed5);
  }

  lemma Row1()
    ensures CubeRoots(PrimeRow(1), KRow(1))
  {
    hide CubeRoot;
    CubeRootOf(23, 2, 0xd807aa98);
    CubeRootOf(29, 3, 0x12835b01);
    CubeRootOf(31, 3, 0x243185be);
    CubeRootOf(37, 3, 0x550c7dc3);
    CubeRootOf(41, 3, 0x72be5d74);
    CubeRootOf(43, 3, 0x80deb1fe);
    CubeRootOf(47, 3, 0x9bdc06a7);
    CubeRootOf(53, 3, 0xc19bf174);
  }

  lemma Row2()
    ensures CubeRoots(PrimeRow(2), KRow(2))
  {
    hide CubeRoot;
    CubeRootOf(59, 3, 0xe49b69c1);
    CubeRootOf(61, 3, 0xefbe4786);
    CubeRootOf(67, 4, 0x0fc19dc6);
    CubeRootOf(71, 4, 0x240ca1cc);
    CubeRootOf(73, 4, 0x2de92c6f);
    CubeRootOf(79, 4, 0x4a7484aa);
    CubeRootOf(83, 4, 0x5cb0a9dc);
    CubeRootOf(89, 4, 0x76f988da);
  }

  lemma Row3()
    ensures CubeRoots(PrimeRow(3), KRow(3))
  {
    hide CubeRoot;
    CubeRootOf(97, 4, 0x983e5152);
    CubeRootOf(101, 4, 0xa831c66d);
    CubeRootOf(103, 4, 0xb00327c8);
    CubeRootOf(107, 4, 0xbf597fc7);
    CubeRootOf(109, 4, 0xc6e00bf3);
    CubeRootOf(113, 4, 0xd5a79147);
    CubeRootOf(127, 5, 0x06ca6351);
    CubeRootOf(131, 5, 0x14292967);
  }

  lemma Row4()
    ensures CubeRoots(PrimeRow(4), KRow(4))
  {
    hide CubeRoot;
    CubeRootOf(137, 5, 0x27b70a85);
    CubeRootOf(139, 5, 0x2e1b2138);
    CubeRootOf(149, 5, 0x4d2c6dfc);
    CubeRootOf(151, 5, 0x53380d13);
    CubeRootOf(157, 5, 0x650a7354);
    CubeRootOf(163, 5, 0x766a0abb);
    CubeRootOf(167, 5, 0x81c2c92e);
    CubeRootOf(173, 5, 0x92722c85);
  }

  lemma Row5()
    ensures CubeRoots(PrimeRow(5), KRow(5))
  {
    hide CubeRoot;
    CubeRootOf(179, 5, 0xa2bfe8a1);
    CubeRootOf(181, 5, 0xa81a664b);
    CubeRootOf(191, 5, 0xc24b8b70);
    CubeRootOf(193, 5, 0xc76c51a3);
    CubeRootOf(197, 5, 0xd192e819);
    CubeRootOf(199, 5, 0xd6990624);
    CubeRootOf(211, 5, 0xf40e3585);
    CubeRootOf(223, 6, 0x106aa070);
  }

  lemma Row6()
    ensures CubeRoots(PrimeRow(6), KRow(6))
  {
    hide CubeRoot;
    CubeRootOf(227, 6, 0x19a4c116);
    CubeRootOf(229, 6, 0x1e376c08);
    CubeRootOf(233, 6, 0x2748774c);
    CubeRootOf(239, 6, 0x34b0bcb5);
    CubeRootOf(241, 6, 0x391c0cb3);
    CubeRootOf(251, 6, 0x4ed8aa4a);
    CubeRootOf(257, 6, 0x5b9cca4f);
    CubeRootOf(263, 6, 0x682e6ff3);
  }

  lemma Row7()
    ensures CubeRoots(PrimeRow(7), KRow(7))
  {
    hide CubeRoot;
    CubeRootOf(269, 6, 0x748f82ee);
    CubeRootOf(271, 6, 0x78a5636f);
    CubeRootOf(277, 6, 0x84c87814);
    CubeRootOf(281, 6, 0x8cc70208);
    CubeRootOf(283, 6, 0x90befffa);
    CubeRootOf(293, 6, 0xa4506ceb);
    CubeRootOf(307, 6, 0xbef9a3f7);
    CubeRootOf(311, 6, 0xc67178f2);
  }

  /** Section 4.2.2. */
  lemma ConstantsAreCubeRoots(row: nat)
    requires row < 8
    ensures CubeRoots(PrimeRow(row), KRow(row))
  {
    hide CubeRoots, KRow, PrimeRow;
    match row
    case 0 => Row0();
    case 1 => Row1();
    case 2 => Row2();
    case 3 => Row3();
    case 4 => Row4();
    case 5 => Row5();
    case 6 => Row6();
    case _ => Row7();
  }

  /** Section 5.3.3. */
  lemma StartIsSquareRoots()
    ensures forall i :: 0 <= i < 8 ==> SquareRoot(PrimeRow(0)[i], H0()[i])
  {
    hide SquareRoot;
    SquareRootOf(2, 1, 0x6a09e667);
    SquareRootOf(3, 1, 0xbb67ae85);
    SquareRootOf(5, 2, 0x3c6ef372);
    SquareRootOf(7, 2, 0xa54ff53a);
    SquareRootOf(11, 3, 0x510e527f);
    SquareRootOf(13, 3, 0x9b05688c);
    SquareRootOf(17, 4, 0x1f83d9ab);
    SquareRootOf(19, 4, 0x5be0cd19);
  }
}
