/** Numbers as little-endian sequences of radix-2^16 limbs, and the carry chain
    over them.  Limbs may be negative or larger than the radix; the number a
    sequence stands for is `Value`. */
module Limbs {
  const RADIX: int := 0x1_0000

  /** The prime of section 4.1 of RFC 7748, 2^255 - 19. */
  const P: int := 0x7fff_ffff_ffff_ffff_ffff_ffff_ffff_ffff_ffff_ffff_ffff_ffff_ffff_ffff_ffff_ffed

  /** `x` moved up by `n` limbs: x times 2^(16 n). */
  function Shift(n: nat, x: int): int {
    if n == 0 then x else RADIX * Shift(n - 1, x)
  }

  function Value(s: seq<int>): int {
    if s == [] then 0 else s[0] + RADIX * Value(s[1..])
  }

  ghost predicate Congruent(x: int, y: int) {
    exists k :: x == y + k * P
  }

  ghost predicate Bounded(s: seq<int>, m: int) {
    forall i :: 0 <= i < |s| ==> -m <= s[i] <= m
  }

  ghost predicate Digits(s: seq<int>) {
    forall i :: 0 <= i < |s| ==> 0 <= s[i] < RADIX
  }

  /** The carry that enters limb `i` when limbs are normalised upwards. */
  function CarryIn(s: seq<int>, i: nat): int
    requires i <= |s|
  {
    if i == 0 then 0 else (s[i - 1] + CarryIn(s, i - 1)) / RADIX
  }

  /** What a pass leaves in the first `i` limbs before the top carry re-enters. */
  function Reduced(s: seq<int>, i: nat): (r: seq<int>)
    requires i <= |s|
    ensures |r| == i
    ensures Digits(r)
  {
    if i == 0 then [] else Reduced(s, i - 1) + [(s[i - 1] + CarryIn(s, i - 1)) % RADIX]
  }

  /** One carry pass over 16 limbs.  The carry out of the top limb has weight
      2^256, which is 38 modulo P, so it re-enters at the bottom times 38. */
  function Carried(s: seq<int>): (r: seq<int>)
    requires |s| == 16
  {
    var r := Reduced(s, 16);
    r[0 := r[0] + 38 * CarryIn(s, 16)]
  }

  /** A congruent number in the range of the representatives is the remainder. */
  lemma CongruentRemainder(x: int, y: int)
    requires Congruent(x, y) && 0 <= x < P
    ensures x == y % P
  {
    var k :| x == y + k * P;
    assert (k + y / P) * P == x - y % P;
  }

  /** Congruent numbers have the same remainder. */
  lemma CongruentSameRemainder(x: int, y: int)
    requires Congruent(x, y)
    ensures x % P == y % P
  {
    var k :| x == y + k * P;
    var r := x % P;
    assert r == y + (k - x / P) * P;
    CongruentRemainder(r, y);
  }

  lemma CongruentByWhole(x: int, y: int, k: int)
    requires x == y - 2 * P * k
    ensures Congruent(x, y)
  {
    assert x == y + (-2 * k) * P;
  }

  lemma CongruentTrans(x: int, y: int, z: int)
    requires Congruent(x, y) && Congruent(y, z)
    ensures Congruent(x, z)
  {
    var j :| x == y + j * P;
    var k :| y == z + k * P;
    assert x == z + (j + k) * P;
  }

  lemma {:induction false} ShiftSum(n: nat, x: int, y: int)
    ensures Shift(n, x + y) == Shift(n, x) + Shift(n, y)
  {
    if n != 0 {
      ShiftSum(n - 1, x, y);
    }
  }

  lemma {:induction false} ShiftTimes(n: nat, k: int, x: int)
    ensures Shift(n, k * x) == k * Shift(n, x)
  {
    if n != 0 {
      ShiftTimes(n - 1, k, x);
      assert RADIX * (k * Shift(n - 1, x)) == k * (RADIX * Shift(n - 1, x));
    }
  }

  lemma {:induction false} ShiftShift(a: nat, b: nat, x: int)
    ensures Shift(a + b, x) == Shift(a, Shift(b, x))
  {
    if a != 0 {
      ShiftShift(a - 1, b, x);
    }
  }

  lemma Shift16(x: int)
    ensures Shift(16, x) == 2 * P * x + 38 * x
    ensures Shift(15, x) == 0x1_0000_0000_0000_0000_0000_0000_0000_0000_0000_0000_0000_0000_0000_0000_0000 * x
  {
    Shift4(x);
    Shift4(Shift(4, x));
    Shift4(Shift(8, x));
    Shift4(Shift(12, x));
    ShiftShift(4, 4, x);
    ShiftShift(4, 8, x);
    ShiftShift(3, 12, x);
  }

  lemma Shift4(x: int)
    ensures Shift(4, x) == 0x1_0000_0000_0000_0000 * x
    ensures Shift(3, x) == 0x1_0000_0000_0000 * x
  {
    assert Shift(2, x) == RADIX * Shift(1, x);
  }

  lemma {:induction false} ValueAppend(s: seq<int>, x: int)
    ensures Value(s + [x]) == Value(s) + Shift(|s|, x)
  {
    if s == [] {
      assert [] + [x] == [x] && [x][1..] == [];
    } else {
      assert (s + [x])[1..] == s[1..] + [x];
      ValueAppend(s[1..], x);
    }
  }

  lemma {:induction false} ValueConcat(a: seq<int>, b: seq<int>)
    ensures Value(a + b) == Value(a) + Shift(|a|, Value(b))
  {
    if a == [] {
      assert a + b == b;
    } else {
      assert (a + b)[1..] == a[1..] + b;
      ValueConcat(a[1..], b);
    }
  }

  /** Limb-wise combination is combination of the numbers. */
  lemma {:induction false} ValueCombine(c: seq<int>, a: seq<int>, b: seq<int>, k: int)
    requires |a| == |b| == |c|
    requires forall i :: 0 <= i < |a| ==> c[i] == a[i] + k * b[i]
    ensures Value(c) == Value(a) + k * Value(b)
  {
    if c != [] {
      ValueCombine(c[1..], a[1..], b[1..], k);
      CombineStep(k, b[0], Value(b[1..]));
    }
  }

  lemma CombineStep(k: int, x: int, v: int)
    ensures k * x + RADIX * (k * v) == k * (x + RADIX * v)
  {
  }

  lemma {:induction false} ValueUpdate(s: seq<int>, k: nat, d: int)
    requires k < |s|
    ensures Value(s[k := s[k] + d]) == Value(s) + Shift(k, d)
  {
    var t := s[k := s[k] + d];
    if k == 0 {
      assert t[1..] == s[1..];
    } else {
      assert t[1..] == s[1..][k - 1 := s[1..][k - 1] + d];
      ValueUpdate(s[1..], k - 1, d);
    }
  }

  // ---- the carry pass ------------------------------------------------------

  lemma CarryStep(n: nat, v: int, c: int, k: int)
    ensures Shift(n, v + c - RADIX * k) == Shift(n, v) + Shift(n, c) - Shift(n + 1, k)
  {
    ShiftSum(n, v + c, -RADIX * k);
    ShiftSum(n, v, c);
    ShiftTimes(n, -RADIX, k);
  }

  lemma {:induction false} ReducedValue(s: seq<int>, i: nat)
    requires i <= |s|
    ensures Value(Reduced(s, i)) == Value(s[..i]) - Shift(i, CarryIn(s, i))
  {
    if i != 0 {
      var c, v := CarryIn(s, i - 1), s[i - 1];
      ReducedValue(s, i - 1);
      assert s[..i] == s[..i - 1] + [v];
      ValueAppend(Reduced(s, i - 1), (v + c) % RADIX);
      ValueAppend(s[..i - 1], v);
      var k := CarryIn(s, i);
      assert (v + c) % RADIX == v + c - RADIX * k;
      CarryStep(i - 1, v, c, k);
    }
  }

  /** A carry pass changes the number by a multiple of 2P: the number is the
      same in the field. */
  lemma CarriedValue(s: seq<int>)
    requires |s| == 16
    ensures Value(Carried(s)) == Value(s) - 2 * P * CarryIn(s, 16)
  {
    var r, k := Reduced(s, 16), CarryIn(s, 16);
    ReducedValue(s, 16);
    assert s[..16] == s;
    ValueUpdate(r, 0, 38 * k);
    Shift16(k);
  }

  lemma CarriedCongruent(s: seq<int>)
    requires |s| == 16
    ensures Congruent(Value(Carried(s)), Value(s))
  {
    CarriedValue(s);
    CongruentByWhole(Value(Carried(s)), Value(s), CarryIn(s, 16));
  }

  lemma {:induction false} CarryBound(s: seq<int>, m: nat, i: nat)
    requires i <= |s| && Bounded(s, m)
    ensures -(m / 0x8000 + 1) <= CarryIn(s, i) <= m / 0x8000 + 1
  {
    if i != 0 {
      CarryBound(s, m, i - 1);
    }
  }

  /** Where the limbs from the `k`-th on are proper digits, a carry between
      `lo` and `hi` of [-1, 1] stays between them. */
  lemma {:induction false} SmallCarries(s: seq<int>, k: nat, i: nat, lo: int, hi: int)
    requires |s| == 16 && k <= i <= 16
    requires -1 <= lo <= 0 <= hi <= 1
    requires forall j :: k <= j < 16 ==> 0 <= s[j] < RADIX
    requires lo <= CarryIn(s, k) <= hi
    ensures lo <= CarryIn(s, i) <= hi
  {
    if i != k {
      SmallCarries(s, k, i - 1, lo, hi);
    }
  }

  /** Limbs ready to be added and multiplied again: the range a second pass
      leaves. */
  ghost predicate Settled(s: seq<int>) {
    && |s| == 16
    && -38 <= s[0] <= 65573
    && Digits(s[1..])
  }

  /** Two carry passes settle any product that the first pass can take. */
  lemma TwoPassesSettle(s: seq<int>)
    requires |s| == 16 && Bounded(s, 39 * 0x4000_0000_0000)
    requires -0x4000_0000_0000 <= s[15] <= 0x4000_0000_0000
    ensures Settled(Carried(Carried(s)))
  {
    CarryBound(s, 39 * 0x4000_0000_0000, 15);
    assert CarryIn(s, 16) == (s[15] + CarryIn(s, 15)) / RADIX;
    var t := Carried(s);
    assert CarryIn(t, 1) == t[0] / RADIX;
    assert CarryIn(t, 2) == (t[1] + CarryIn(t, 1)) / RADIX;
    assert CarryIn(t, 3) == (t[2] + CarryIn(t, 2)) / RADIX;
    SmallCarries(t, 3, 16, -1, 1);
  }

  /** Three carry passes turn limbs of moderate size into proper digits. */
  lemma ThreePassesGiveDigits(s: seq<int>)
    requires |s| == 16 && Bounded(s, 0x20_0000)
    ensures Digits(Carried(Carried(Carried(s))))
  {
    CarryBound(s, 0x20_0000, 16);
    var t := Carried(s);
    assert CarryIn(t, 1) == t[0] / RADIX;
    SmallCarries(t, 1, 16, -1, 1);
    SettledPassGivesDigits(Carried(t));
  }

  lemma SettledPassGivesDigits(s: seq<int>)
    requires Settled(s)
    ensures Digits(Carried(s))
  {
    assert CarryIn(s, 1) == s[0] / RADIX;
    assert forall j :: 1 <= j < 16 ==> s[j] == s[1..][j - 1];
    assert Reduced(s, 16)[0] == s[0] % RADIX by { ReducedAt(s, 16, 0); }
    if s[0] < 0 {
      SmallCarries(s, 1, 16, -1, 0);
    } else if s[0] < RADIX {
      SmallCarries(s, 1, 16, 0, 0);
    } else {
      SmallCarries(s, 1, 16, 0, 1);
    }
  }

  lemma {:induction false} ReducedAt(s: seq<int>, i: nat, j: nat)
    requires j < i <= |s|
    ensures Reduced(s, i)[j] == (s[j] + CarryIn(s, j)) % RADIX
  {
    if j < i - 1 {
      ReducedAt(s, i - 1, j);
    }
  }

  lemma {:induction false} DigitsValue(s: seq<int>)
    requires Digits(s)
    ensures 0 <= Value(s) < Shift(|s|, 1)
  {
    if s != [] {
      DigitsValue(s[1..]);
    }
  }
}
