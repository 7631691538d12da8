/** Bitwise operators over `int`, as C, Swift, Rust and JavaScript have them on
    fixed-width integers.  An operand has `w` low bits; what is above them is a
    sign (negative numbers are in two's complement) or, for the unsigned types,
    zero.  JavaScript's `ToInt32` leaves numbers with w = 31 and a sign as they
    are. */
module Bits {
  type Byte = x: int | 0 <= x < 0x100
  type Word = x: int | 0 <= x < 0x1_0000_0000

  function Pow2(n: nat): (r: int)
    ensures r >= 1
  {
    if n == 0 then 1 else 2 * Pow2(n - 1)
  }

  ghost predicate InRange(w: nat, x: int) {
    -Pow2(w) <= x < Pow2(w)
  }

  function And(w: nat, x: int, y: int): int {
    if w == 0 then (if x < 0 && y < 0 then -1 else 0)
    else (x % 2) * (y % 2) + 2 * And(w - 1, x / 2, y / 2)
  }

  function Xor(w: nat, x: int, y: int): int {
    if w == 0 then (if (x < 0) == (y < 0) then 0 else -1)
    else (x + y) % 2 + 2 * Xor(w - 1, x / 2, y / 2)
  }

  function Or(w: nat, x: int, y: int): int {
    if w == 0 then (if x < 0 || y < 0 then -1 else 0)
    else (if x % 2 == 1 || y % 2 == 1 then 1 else 0) + 2 * Or(w - 1, x / 2, y / 2)
  }

  function Not(x: int): int {
    -1 - x
  }

  lemma XorBit(x: int, y: int, rest: int)
    ensures ((x + y) % 2 + 2 * rest) / 2 == rest
    ensures (x + ((x + y) % 2 + 2 * rest)) % 2 == y % 2
  {
  }

  /** `x ^ (x ^ y)` is `y`: what makes the masked exchange work. */
  lemma {:induction false} XorCancels(w: nat, x: int, y: int)
    requires InRange(w, y)
    ensures Xor(w, x, Xor(w, x, y)) == y
  {
    if w != 0 {
      XorCancels(w - 1, x / 2, y / 2);
      XorBit(x, y, Xor(w - 1, x / 2, y / 2));
    }
  }

  lemma {:induction false} XorRange(w: nat, x: int, y: int)
    requires InRange(w, x) && InRange(w, y)
    ensures InRange(w, Xor(w, x, y))
    ensures Xor(w, x, y) == Xor(w, y, x)
  {
    if w != 0 {
      XorRange(w - 1, x / 2, y / 2);
    }
  }

  lemma {:induction false} XorZero(w: nat, x: int)
    requires InRange(w, x)
    ensures Xor(w, x, 0) == x
  {
    if w != 0 {
      XorZero(w - 1, x / 2);
    }
  }

  lemma {:induction false} AndZero(w: nat, x: int)
    ensures And(w, 0, x) == 0
  {
    if w != 0 {
      AndZero(w - 1, x / 2);
    }
  }

  lemma {:induction false} AndOnes(w: nat, x: int)
    requires InRange(w, x)
    ensures And(w, -1, x) == x
  {
    if w != 0 {
      AndOnes(w - 1, x / 2);
    }
  }

  lemma {:induction false} AndCommutes(w: nat, x: int, y: int)
    ensures And(w, x, y) == And(w, y, x)
  {
    if w != 0 {
      AndCommutes(w - 1, x / 2, y / 2);
    }
  }

  /** A mask of `k` low ones takes the remainder, also of negative numbers. */
  lemma {:induction false} AndLow(w: nat, x: int, k: nat)
    requires k <= w
    ensures And(w, x, Pow2(k) - 1) == x % Pow2(k)
  {
    if k == 0 {
      AndRightZero(w, x);
    } else {
      var m := Pow2(k - 1);
      AndLow(w - 1, x / 2, k - 1);
      assert (Pow2(k) - 1) % 2 == 1 && (Pow2(k) - 1) / 2 == m - 1;
      HalfRemainder(x, m);
    }
  }

  lemma {:induction false} AndRightZero(w: nat, x: int)
    ensures And(w, x, 0) == 0
  {
    if w != 0 {
      AndRightZero(w - 1, x / 2);
    }
  }

  lemma HalfRemainder(x: int, m: int)
    requires m >= 1
    ensures x % (2 * m) == x % 2 + 2 * ((x / 2) % m)
  {
    var q := (x / 2) / m;
    var r := x % 2 + 2 * ((x / 2) % m);
    assert x == (2 * m) * q + r;
    assert 0 <= r < 2 * m;
    RemainderUnique(x, 2 * m, q, r);
  }

  lemma RemainderUnique(x: int, m: int, q: int, r: int)
    requires m >= 1 && x == m * q + r && 0 <= r < m
    ensures x % m == r
  {
    var d := q - x / m;
    assert m * d == x % m - r;
    assert d >= 1 ==> m * d >= m;
    assert d <= -1 ==> m * d <= -m;
  }

  lemma {:induction false} Pow2Sum(m: nat, n: nat)
    ensures Pow2(m + n) == Pow2(m) * Pow2(n)
  {
    if m != 0 {
      Pow2Sum(m - 1, n);
      assert 2 * (Pow2(m - 1) * Pow2(n)) == (2 * Pow2(m - 1)) * Pow2(n);
    }
  }

  lemma {:induction false} Pow2Grows(a: nat, b: nat)
    requires a <= b
    ensures Pow2(a) <= Pow2(b)
  {
    if a < b {
      Pow2Grows(a, b - 1);
    }
  }

  lemma Pow2Values()
    ensures Pow2(1) == 2 && Pow2(2) == 4 && Pow2(4) == 16 && Pow2(6) == 64 && Pow2(8) == 256
    ensures Pow2(16) == 0x1_0000 && Pow2(24) == 0x100_0000 && Pow2(31) == 0x8000_0000
    ensures Pow2(32) == 0x1_0000_0000 && Pow2(64) == 0x1_0000_0000_0000_0000
  {
    assert Pow2(3) == 8;
    Pow2Sum(4, 4);
    Pow2Sum(2, 4);
    Pow2Sum(8, 8);
    Pow2Sum(16, 8);
    Pow2Sum(16, 16);
    Pow2Sum(1, 31);
    Pow2Sum(32, 32);
  }

  /** Where the low `k` bits of `x` are zero and `y` has no others, `|` adds. */
  lemma {:induction false} OrAdds(w: nat, k: nat, x: nat, y: nat)
    requires k <= w && y < Pow2(k)
    requires x * Pow2(k) < Pow2(w)
    ensures Or(w, x * Pow2(k), y) == x * Pow2(k) + y
  {
    if k == 0 {
      OrZero(w, x);
    } else {
      var m := Pow2(k - 1);
      assert x * Pow2(k) == 2 * (x * m);
      OrAdds(w - 1, k - 1, x, y / 2);
    }
  }

  lemma {:induction false} OrZero(w: nat, x: nat)
    requires x < Pow2(w)
    ensures Or(w, x, 0) == x
  {
    if w != 0 {
      OrZero(w - 1, x / 2);
    }
  }

  /** Unsigned operands give an unsigned result of the same width. */
  lemma {:induction false} Unsigned(w: nat, x: nat, y: nat)
    requires x < Pow2(w) && y < Pow2(w)
    ensures 0 <= And(w, x, y) < Pow2(w)
    ensures 0 <= Xor(w, x, y) < Pow2(w)
    ensures 0 <= Or(w, x, y) < Pow2(w)
  {
    if w != 0 {
      Unsigned(w - 1, x / 2, y / 2);
    }
  }

  // ---- 32-bit words --------------------------------------------------------

  function And32(x: Word, y: Word): Word {
    Pow2Values();
    Unsigned(32, x, y);
    And(32, x, y)
  }

  function Xor32(x: Word, y: Word): Word {
    Pow2Values();
    Unsigned(32, x, y);
    Xor(32, x, y)
  }

  function Or32(x: Word, y: Word): Word {
    Pow2Values();
    Unsigned(32, x, y);
    Or(32, x, y)
  }

  function Not32(x: Word): Word {
    0xffff_ffff - x
  }

  /** Addition wraps. */
  function Plus32(x: Word, y: Word): Word {
    (x + y) % 0x1_0000_0000
  }

  function Shr32(x: Word, n: nat): Word {
    if n == 0 then x else Shr32(x / 2, n - 1)
  }

  function Shl32(x: Word, n: nat): Word
    decreases n, x
  {
    if n == 0 then x else Shl32((2 * x) % 0x1_0000_0000, n - 1)
  }

  lemma PlusFlat(x: int, y: int)
    ensures (x % 0x1_0000_0000 + y) % 0x1_0000_0000 == (x + y) % 0x1_0000_0000
  {
  }

  lemma PlusFour(a: Word, b: Word, c: Word, d: Word)
    ensures Plus32(Plus32(Plus32(a, b), c), d) == (a + b + c + d) % 0x1_0000_0000
  {
    PlusFlat(a + b, c);
    PlusFlat(a + b + c, d);
  }

  lemma PlusReordered(a: Word, b: Word, c: Word, d: Word)
    ensures Plus32(Plus32(Plus32(a, b), c), d) == Plus32(Plus32(Plus32(d, c), b), a)
  {
    PlusFour(a, b, c, d);
    PlusFour(d, c, b, a);
    assert a + b + c + d == d + c + b + a;
  }
}
