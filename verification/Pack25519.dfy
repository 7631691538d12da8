/** Packing field elements into 32 bytes and back: sections 4.1 and 5 of RFC
    7748.  `Pack` must give the one representative below P. */
module Pack25519 {
  import opened Limbs
  import opened Field25519
  import opened Bits

  /** The limbs of P. */
  function PLimb(i: nat): int {
    if i == 0 then 65517 else if i < 15 then 65535 else 32767
  }

  function PLimbs(n: nat): (r: seq<int>)
    ensures |r| == n
  {
    if n == 0 then [] else PLimbs(n - 1) + [PLimb(n - 1)]
  }

  /** The number that bytes stand for, least significant first. */
  function BytesValue(s: seq<int>): int {
    if s == [] then 0 else s[0] + 256 * BytesValue(s[1..])
  }

  /** `T`: exchanges two limb arrays when `b` is 1, without a branch. */
  method Exchange(p: array<Exact>, q: array<Exact>, b: int)
    requires p.Length == q.Length == 16 && p != q
    requires b == 0 || b == 1
    requires forall i :: 0 <= i < 16 ==> InRange(31, p[i]) && InRange(31, q[i])
    modifies p, q
    ensures p[..] == if b == 1 then old(q[..]) else old(p[..])
    ensures q[..] == if b == 1 then old(p[..]) else old(q[..])
  {
    hide And, Xor, Not, InRange;
    var mask := Not(b - 1);
    for i := 0 to 16
      invariant forall j :: 0 <= j < i ==> p[j] == (if b == 1 then old(q[j]) else old(p[j]))
      invariant forall j :: 0 <= j < i ==> q[j] == (if b == 1 then old(p[j]) else old(q[j]))
      invariant forall j :: i <= j < 16 ==> p[j] == old(p[j]) && q[j] == old(q[j])
    {
      MaskedExchange(p[i], q[i], b);
      var e := And(31, mask, Xor(31, p[i], q[i]));
      p[i] := Xor(31, p[i], e);
      q[i] := Xor(31, q[i], e);
    }
  }

  lemma MaskedExchange(x: int, y: int, b: int)
    requires b == 0 || b == 1
    requires InRange(31, x) && InRange(31, y)
    ensures Xor(31, x, And(31, Not(b - 1), Xor(31, x, y))) == if b == 1 then y else x
    ensures Xor(31, y, And(31, Not(b - 1), Xor(31, x, y))) == if b == 1 then x else y
  {
    XorRange(31, x, y);
    if b == 1 {
      AndOnes(31, Xor(31, x, y));
      XorCancels(31, x, y);
      XorCancels(31, y, x);
    } else {
      AndZero(31, Xor(31, x, y));
      XorZero(31, x);
      XorZero(31, y);
    }
  }

  /** The borrow that `x >> 16 & 1` reads off a limb difference. */
  lemma BorrowBit(x: int)
    requires -0x1_0000 <= x < 0x1_0000
    ensures And(31, x / 65536, 1) == if x < 0 then 1 else 0
    ensures And(31, x, 65535) == x + 65536 * (if x < 0 then 1 else 0)
  {
    assert Pow2(1) == 2;
    AndLow(31, x / 65536, 1);
    AndLow(31, x, 16);
    assert Pow2(16) == 65536 by { assert Pow2(8) == 256; assert Pow2(12) == 4096; }
  }

  /** The state of the subtraction of P before limb `n`: the limbs below `n - 1`
      are digits, limb `n - 1` still holds its borrow. */
  ghost predicate Subtracted(m: seq<int>, h: seq<int>, n: nat) {
    && 1 <= n <= |m| && n <= |h|
    && Digits(m[..n - 1])
    && -0x1_0000 <= m[n - 1] < 0x1_0000
    && Value(m[..n]) == Value(h[..n]) - Value(PLimbs(n))
  }

  lemma SubtractLimb(m: seq<int>, h: seq<int>, n: nat, m': seq<int>)
    requires n < 16 && |m| == |m'| == |h| == 16 && Subtracted(m, h, n)
    requires 0 <= h[n] < RADIX
    requires var borrow := if m[n - 1] < 0 then 1 else 0;
      m' == m[n := h[n] - PLimb(n) - borrow][n - 1 := m[n - 1] + 65536 * borrow]
    ensures Digits(m'[..n])
    ensures Value(m'[..n + 1]) == Value(h[..n + 1]) - Value(PLimbs(n + 1))
  {
    var borrow := if m[n - 1] < 0 then 1 else 0;
    var low := m[..n][n - 1 := m[n - 1] + 65536 * borrow];
    assert m'[..n + 1] == low + [m'[n]];
    assert m'[..n] == m[..n - 1] + [m[n - 1] + 65536 * borrow];
    assert m[..n][n - 1] == m[n - 1];
    ValueUpdate(m[..n], n - 1, 65536 * borrow);
    ValueAppend(low, m'[n]);
    assert h[..n + 1] == h[..n] + [h[n]];
    ValueAppend(h[..n], h[n]);
    ValueAppend(PLimbs(n), PLimb(n));
    BorrowWeight(n - 1, h[n], PLimb(n), borrow);
  }

  lemma BorrowWeight(k: nat, x: int, y: int, b: int)
    ensures Shift(k, RADIX * b) + Shift(k + 1, x - y - b) == Shift(k + 1, x) - Shift(k + 1, y)
  {
    ShiftTimes(k, RADIX, b);
    ShiftSum(k + 1, x - y - b, y + b);
    ShiftSum(k + 1, y, b);
  }

  lemma PLimbsValue()
    ensures Value(PLimbs(16)) == P
  {
    PLimbsPrefix(15);
    ValueAppend(PLimbs(15), 32767);
    Shift16(1);
    Shift16(32767);
  }

  lemma {:induction false} PLimbsPrefix(n: nat)
    requires 1 <= n <= 15
    ensures Value(PLimbs(n)) == Shift(n, 1) - 19
  {
    if n == 1 {
      assert PLimbs(1) == [65517];
      assert Value(PLimbs(1)) == 65517 + RADIX * Value(PLimbs(1)[1..]);
      assert Shift(1, 1) == RADIX * Shift(0, 1);
    } else {
      PLimbsPrefix(n - 1);
      ValueAppend(PLimbs(n - 1), 65535);
      ShiftTimes(n - 1, 65535, 1);
    }
  }

  lemma TopInRange(m: seq<int>, h: seq<int>, n: nat)
    requires Subtracted(m, h, n) && Digits(h) && n < |h|
    ensures -0x1_0000 <= m[n - 1] < 0x1_0000 && 0 <= h[n] < RADIX
  {
  }

  /** One limb of the subtraction. */
  lemma SubtractStep(m: seq<int>, h: seq<int>, n: nat, m': seq<int>)
    requires n < 15 && |m| == |m'| == |h| == 16 && Subtracted(m, h, n) && Digits(h)
    requires var borrow := if m[n - 1] < 0 then 1 else 0;
      m' == m[n := h[n] - 65535 - borrow][n - 1 := m[n - 1] + 65536 * borrow]
    ensures Subtracted(m', h, n + 1)
  {
    SubtractLimb(m, h, n, m');
  }

  /** The last one, without a next to borrow from. */
  lemma SubtractLast(m: seq<int>, h: seq<int>, m': seq<int>)
    requires |m| == |m'| == |h| == 16 && Subtracted(m, h, 15) && Digits(h)
    requires var borrow := if m[14] < 0 then 1 else 0;
      m' == m[15 := h[15] - 32767 - borrow][14 := m[14] + 65536 * borrow]
    ensures Value(m') == Value(h) - P && Digits(m'[..15]) && -0x1_0000 <= m'[15] < 0x1_0000
  {
    SubtractLimb(m, h, 15, m');
    PLimbsValue();
    hide Value;
    assert m' == m'[..16] && h == h[..16];
  }

  /** The trial subtraction inside `z`: `m` becomes `h - P`, and the result says
      whether that went below zero. */
  method TrySubtract(m: array<Exact>, h: array<Exact>) returns (borrow: int)
    requires m.Length == h.Length == 16 && m != h
    requires Digits(h[..])
    modifies m
    ensures Value(m[..]) == Value(h[..]) - P
    ensures Digits(m[..15]) && -0x1_0000 <= m[15] < 0x1_0000
    ensures borrow == if m[15] < 0 then 1 else 0
  {
    ghost var limbs: seq<int> := h[..];
    assert 0 <= h[0] < RADIX by { assert h[0] == limbs[0]; }
    hide And, Value, Digits, Subtracted;
    m[0] := h[0] - 65517;
    StartSubtract(m[..], limbs);
    for n := 1 to 15
      invariant Subtracted(m[..], limbs, n)
    {
      ghost var before: seq<int> := m[..];
      TopInRange(before, limbs, n);
      BorrowBit(m[n - 1]);
      m[n] := h[n] - 65535 - And(31, m[n - 1] / 65536, 1);
      m[n - 1] := And(31, m[n - 1], 65535);
      SubtractStep(before, limbs, n, m[..]);
    }
    ghost var before: seq<int> := m[..];
    TopInRange(before, limbs, 15);
    BorrowBit(m[14]);
    m[15] := h[15] - 32767 - And(31, m[14] / 65536, 1);
    ghost var top: int := m[15];
    BorrowBit(m[15]);
    borrow := And(31, m[15] / 65536, 1);
    m[14] := And(31, m[14], 65535);
    SubtractLast(before, limbs, m[..]);
    assert m[..15] == m[..][..15] && m[..][15] == top;
  }

  lemma StartSubtract(m: seq<int>, h: seq<int>)
    requires |m| == |h| == 16 && m[0] == h[0] - 65517 && 0 <= h[0] < RADIX
    ensures Subtracted(m, h, 1)
  {
    assert m[..1] == [m[0]] && h[..1] == [h[0]];
    assert m[..1][1..] == [] && h[..1][1..] == [];
    assert PLimbs(1) == [65517] && PLimbs(1)[1..] == [];
    assert PLimbs(0) == [];
  }

  lemma SignOfTop(m: seq<int>)
    requires |m| == 16 && Digits(m[..15]) && -0x1_0000 <= m[15] < 0x1_0000
    ensures m[15] < 0 <==> Value(m) < 0
    ensures m[15] >= 0 ==> Digits(m)
  {
    assert m == m[..15] + [m[15]];
    ValueAppend(m[..15], m[15]);
    DigitsValue(m[..15]);
    Shift16(m[15]);
    Shift16(1);
  }

  /** Two trial subtractions bring 16 digits below P. */
  method Canonicalise(h: array<Exact>)
    requires h.Length == 16 && Digits(h[..])
    modifies h
    ensures Digits(h[..])
    ensures Value(h[..]) == old(Value(h[..])) % P
  {
    ghost var v := Value(h[..]);
    DigitsValue(h[..]);
    Shift16(1);
    assert v == v + 0 * P;
    var m := new Exact[16](_ => 0);
    for e := 0 to 2
      invariant Digits(h[..])
      invariant Congruent(Value(h[..]), v)
      invariant 0 <= Value(h[..]) < (3 - e) * P
    {
      var borrow := TrySubtract(m, h);
      SignOfTop(m[..]);
      LimbsInRange(m[..]);
      LimbsInRange(h[..]);
      ghost var before := Value(h[..]);
      Exchange(h, m, 1 - borrow);
      assert Congruent(Value(h[..]), before) by {
        assert Value(h[..]) == before + (if borrow == 0 then -1 else 0) * P;
      }
      CongruentTrans(Value(h[..]), before, v);
    }
    CongruentRemainder(Value(h[..]), v);
  }

  lemma LimbsInRange(s: seq<int>)
    requires |s| == 16 && Digits(s[..15]) && -0x1_0000 <= s[15] < 0x1_0000
    ensures forall i :: 0 <= i < 16 ==> InRange(31, s[i])
  {
    Pow2Values();
    assert forall i :: 0 <= i < 15 ==> s[i] == s[..15][i];
  }

  // ---- bytes ---------------------------------------------------------------

  function BytesOf(digits: seq<int>): (r: seq<int>)
    ensures |r| == 2 * |digits|
  {
    if digits == [] then [] else [digits[0] % 256, digits[0] / 256] + BytesOf(digits[1..])
  }

  lemma {:induction false} BytesOfAppend(s: seq<int>, x: int)
    ensures BytesOf(s + [x]) == BytesOf(s) + [x % 256, x / 256]
  {
    if s == [] {
      assert [] + [x] == [x] && [x][1..] == [];
    } else {
      assert (s + [x])[1..] == s[1..] + [x];
      BytesOfAppend(s[1..], x);
    }
  }

  lemma {:induction false} BytesOfValue(s: seq<int>)
    ensures BytesValue(BytesOf(s)) == Value(s)
  {
    if s != [] {
      BytesOfValue(s[1..]);
      var b := BytesOf(s);
      assert b[1..][1..] == BytesOf(s[1..]);
      assert BytesValue(b) == b[0] + 256 * (b[1] + 256 * BytesValue(b[1..][1..]));
    }
  }

  /** A number has one little-endian representation of a given length. */
  lemma {:induction false} BytesUnique(a: seq<Byte>, b: seq<Byte>)
    requires |a| == |b| && BytesValue(a) == BytesValue(b)
    ensures a == b
  {
    if a != [] {
      assert a[0] == BytesValue(a) % 256 == b[0];
      BytesUnique(a[1..], b[1..]);
      assert a == [a[0]] + a[1..] && b == [b[0]] + b[1..];
    }
  }

  /** Two more bytes of an array. */
  lemma TwoMore(r: array<Byte>, n: nat)
    requires n + 2 <= r.Length
    ensures r[..n + 2] == r[..n] + [r[n], r[n + 1]]
  {
  }

  /** The two bytes of a limb. */
  lemma LimbBytes(h: seq<int>, n: nat)
    requires n < |h| && Digits(h)
    ensures 0 <= h[n] < RADIX && And(31, 255, h[n]) == h[n] % 256
    ensures BytesOf(h[..n + 1]) == BytesOf(h[..n]) + [h[n] % 256, (h[n] / 256) % 256]
  {
    LowByte(h[n]);
    BytesOfAppend(h[..n], h[n]);
    assert h[..n + 1] == h[..n] + [h[n]];
  }

  /** The byte loop that ends `z`. */
  method WriteBytes(r: array<Byte>, h: array<Exact>)
    requires r.Length == 32 && h.Length == 16
    requires Digits(h[..])
    modifies r
    ensures BytesValue(r[..]) == Value(h[..])
  {
    hide And, Value, BytesValue, BytesOf, Digits;
    ghost var limbs: seq<int> := h[..];
    for n := 0 to 16
      invariant r[..2 * n] == BytesOf(limbs[..n])
    {
      LimbBytes(limbs, n);
      r[2 * n] := And(31, 255, h[n]);
      r[2 * n + 1] := (h[n] / 256) % 256;
      TwoMore(r, 2 * n);
    }
    assert r[..] == r[..32] && limbs[..16] == limbs;
    BytesOfValue(limbs);
  }

  /** `z` (`pack25519`): the bytes of the one representative below P, whatever
      representative the limbs hold. */
  method Pack(r: array<Byte>, t: array<Exact>)
    requires r.Length == 32 && t.Length == 16
    requires Bounded(t[..], LIMB_LIMIT)
    modifies r
    ensures BytesValue(r[..]) == Value(t[..]) % P
  {
    var h := new Exact[16];
    CopyLimbs(h, t);
    ghost var s: seq<int> := t[..];
    ThreePasses(s);
    Carry(h);
    Carry(h);
    Carry(h);
    Canonicalise(h);
    WriteBytes(r, h);
  }

  lemma LowByte(x: int)
    ensures And(31, 255, x) == x % 256
  {
    AndCommutes(31, 255, x);
    AndLow(31, x, 8);
    assert Pow2(8) == 256;
  }

  /** What the three carry passes of `z` do together. */
  lemma ThreePasses(s: seq<int>)
    requires |s| == 16 && Bounded(s, LIMB_LIMIT)
    ensures Bounded(s, 0x10_0000_0000_0000)
    ensures Bounded(Carried(s), 0x10_0000_0000_0000)
    ensures Bounded(Carried(Carried(s)), 0x10_0000_0000_0000)
    ensures var d := Carried(Carried(Carried(s))); Digits(d) && Value(d) % P == Value(s) % P
  {
    PassStaysBounded(s);
    PassStaysBounded(Carried(s));
    ThreePassesGiveDigits(s);
    ThreePassesValue(s);
  }

  lemma PassStaysBounded(s: seq<int>)
    requires |s| == 16 && Bounded(s, LIMB_LIMIT)
    ensures Bounded(s, 0x10_0000_0000_0000)
    ensures Bounded(Carried(s), LIMB_LIMIT)
    ensures Bounded(Carried(s), 0x10_0000_0000_0000)
  {
    CarryBound(s, LIMB_LIMIT, 16);
  }

  lemma ThreePassesValue(s: seq<int>)
    requires |s| == 16
    ensures Value(Carried(Carried(Carried(s)))) % P == Value(s) % P
  {
    var t := Carried(s);
    var u := Carried(t);
    CarriedCongruent(s);
    CarriedCongruent(t);
    CarriedCongruent(u);
    CongruentSameRemainder(Value(t), Value(s));
    CongruentSameRemainder(Value(u), Value(t));
    CongruentSameRemainder(Value(Carried(u)), Value(u));
  }

  /** `N` (`unpack25519`): the number below 2^255 that the bytes hold; the top
      bit is dropped. */
  method Unpack(r: array<Exact>, t: array<Byte>)
    requires r.Length == 16 && t.Length == 32
    modifies r
    ensures Digits(r[..])
    ensures Value(r[..]) == BytesValue(t[..]) % (P + 19)
  {
    for n := 0 to 16
      invariant BytesOf(r[..n]) == t[..2 * n]
      invariant Digits(r[..n])
    {
      var low: int, high: int := t[2 * n], t[2 * n + 1];
      r[n] := low + high * 256;
      BytesOfAppend(r[..n], r[n]);
      OneMore(r, n);
      TwoMore(t, 2 * n);
    }
    assert r[..] == r[..16] && t[..] == t[..32];
    ghost var s: seq<int> := r[..];
    BytesOfValue(s);
    assert s[15] == r[15];
    TopBitDropped(s);
    r[15] := And(31, r[15], 32767);
    assert r[..] == s[15 := r[15]];
  }

  lemma TopBitDropped(s: seq<int>)
    requires |s| == 16 && Digits(s)
    ensures And(31, s[15], 32767) == s[15] % 32768
    ensures Value(s[15 := s[15] % 32768]) == Value(s) % (P + 19)
  {
    AndLow(31, s[15], 15);
    assert Pow2(15) == 32768 by { assert Pow2(8) == 256; assert Pow2(12) == 4096; }
    var b := s[15] / 32768;
    var low := s[15 := s[15] + (-32768 * b)];
    ValueUpdate(s, 15, -32768 * b);
    Shift16(-32768 * b);
    Shift16(s[15] % 32768);
    Shift16(1);
    assert low == low[..15] + [low[15]];
    ValueAppend(low[..15], low[15]);
    DigitsValue(low[..15]);
    RemainderUnique(Value(s), P + 19, b, Value(low));
  }

  /** Unpacking and packing gives the bytes back exactly when they are the
      canonical form of a field element. */
  method Repack(t: array<Byte>) returns (r: array<Byte>)
    requires t.Length == 32
    ensures fresh(r) && r.Length == 32
    ensures BytesValue(r[..]) == BytesValue(t[..]) % (P + 19) % P
    ensures r[..] == t[..] <==> BytesValue(t[..]) < P
  {
    var limbs := new Exact[16];
    Unpack(limbs, t);
    r := new Byte[32];
    Pack(r, limbs);
    BytesNonNegative(t[..]);
    CanonicalBytes(t[..], r[..]);
  }

  lemma CanonicalBytes(t: seq<Byte>, r: seq<Byte>)
    requires |t| == |r| && BytesValue(t) >= 0
    requires BytesValue(r) == BytesValue(t) % (P + 19) % P
    ensures r == t <==> BytesValue(t) < P
  {
    TwoRemainders(BytesValue(t), BytesValue(r));
    if BytesValue(t) < P {
      BytesUnique(r, t);
    }
  }

  lemma TwoRemainders(x: nat, y: int)
    requires y == x % (P + 19) % P
    ensures y == x <==> x < P
  {
  }

  lemma {:induction false} BytesNonNegative(s: seq<Byte>)
    ensures BytesValue(s) >= 0
  {
    if s != [] {
      BytesNonNegative(s[1..]);
    }
  }

  /** Packed forms of two field elements are equal exactly when the elements
      are. */
  lemma PackedFormsAgree(x: seq<int>, y: seq<int>, px: seq<Byte>, py: seq<Byte>)
    requires |px| == |py| == 32
    requires BytesValue(px) == Value(x) % P && BytesValue(py) == Value(y) % P
    ensures px == py <==> Congruent(Value(x), Value(y))
  {
    if Congruent(Value(x), Value(y)) {
      CongruentSameRemainder(Value(x), Value(y));
      BytesUnique(px, py);
    }
    if px == py {
      assert Value(x) == Value(y) + (Value(x) / P - Value(y) / P) * P;
    }
  }
}
