/** The multiplicative inverse by exponentiation (`Z`, `inv25519`): a fixed
    chain of squarings and multiplications that raises its input to P - 2. */
module Inverse25519 {
  import opened Bits
  import opened Fermat
  import opened Field25519
  import opened Limbs
  import opened PrimeCertificate

  lemma CongruentProduct(a: int, b: int, x: int, y: int)
    requires Congruent(a, x) && Congruent(b, y)
    ensures Congruent(a * b, x * y)
  {
    var j :| a == x + j * P;
    var k :| b == y + k * P;
    ExpandMultiples(x, y, j, k, P);
  }

  lemma ExpandMultiples(x: int, y: int, j: int, k: int, p: int)
    ensures (x + j * p) * (y + k * p) == x * y + (x * k + y * j + j * k * p) * p
  {
    ExpandProduct(x, y, j * p, k * p);
    assert x * (k * p) == (x * k) * p;
    assert (j * p) * y == (y * j) * p;
    assert (j * p) * (k * p) == (j * k * p) * p;
  }

  lemma ExpandProduct(x: int, y: int, u: int, v: int)
    ensures (x + u) * (y + v) == x * y + x * v + u * y + u * v
  {
  }

  /** The exponent reached once step `a` of the chain is done; the chain runs
      from step 253 down to step 0. */
  function ChainExponent(a: nat): nat
    requires a <= 254
    decreases 254 - a
  {
    if a == 254 then 1
    else 2 * ChainExponent(a + 1) + (if a == 2 || a == 4 then 0 else 1)
  }

  lemma {:induction false} LongRun(a: nat)
    requires 5 <= a <= 254
    ensures ChainExponent(a) == Pow2(255 - a) - 1
    decreases 254 - a
  {
    if a == 254 {
      assert Pow2(1) == 2 * Pow2(0);
    } else {
      LongRun(a + 1);
    }
  }

  lemma Pow2At50()
    ensures Pow2(50) == 0x4_0000_0000_0000
  {
    assert Pow2(5) == 32;
    Pow2Sum(5, 5);
    Pow2Sum(10, 10);
    Pow2Sum(20, 5);
    Pow2Sum(25, 25);
  }

  lemma Pow2At250()
    ensures Pow2(250) * 32 == P + 19
  {
    Pow2At50();
    Pow2Sum(50, 50);
    assert Pow2(100) == 0x10_0000_0000_0000_0000_0000_0000;
    Pow2Sum(100, 100);
    assert Pow2(200) == 0x100_0000_0000_0000_0000_0000_0000_0000_0000_0000_0000_0000_0000;
    Pow2Sum(200, 50);
  }

  /** The two steps without a multiplication make the exponent P - 2. */
  lemma ChainReachesPMinus2()
    ensures ChainExponent(0) == P - 2
  {
    LongRun(5);
    Pow2At250();
    assert ChainExponent(4) == 2 * ChainExponent(5);
    assert ChainExponent(3) == 2 * ChainExponent(4) + 1;
    assert ChainExponent(2) == 2 * ChainExponent(3);
    assert ChainExponent(1) == 2 * ChainExponent(2) + 1;
    assert ChainExponent(0) == 2 * ChainExponent(1) + 1;
  }

  lemma ChainSquare(c: int, d: int, x: int, n: nat)
    requires Congruent(c, Exp(x, n)) && Congruent(d, c * c)
    ensures Congruent(d, Exp(x, 2 * n))
  {
    CongruentProduct(c, c, Exp(x, n), Exp(x, n));
    ExpSum(x, n, n);
    CongruentTrans(d, c * c, Exp(x, n) * Exp(x, n));
    assert n + n == 2 * n;
  }

  lemma ChainMultiply(c: int, d: int, x: int, n: nat)
    requires Congruent(c, Exp(x, n)) && Congruent(d, c * x)
    ensures Congruent(d, Exp(x, n + 1))
  {
    assert x == x + 0 * P;
    CongruentProduct(c, x, Exp(x, n), x);
    CongruentTrans(d, c * x, Exp(x, n) * x);
    assert Exp(x, n + 1) == x * Exp(x, n);
  }

  lemma SettledIsBounded(s: seq<int>)
    requires Settled(s)
    ensures Bounded(s, LIMB_LIMIT)
  {
    assert forall i :: 1 <= i < 16 ==> s[i] == s[1..][i - 1];
  }

  /** The loop of `Z`. */
  method RaiseToPMinus2(r: array<Exact>, t: array<Exact>)
    requires r.Length == t.Length == 16
    requires Bounded(t[..], LIMB_LIMIT)
    modifies r
    ensures Congruent(Value(r[..]), Exp(old(Value(t[..])), P - 2))
    ensures Settled(r[..])
  {
    ghost var x := Value(t[..]);
    var e := new Exact[16];
    CopyLimbs(e, t);
    assert Exp(x, 1) == x * Exp(x, 0);
    assert x == Exp(x, 1) + 0 * P;
    for n := 254 downto 0
      invariant Congruent(Value(e[..]), Exp(x, ChainExponent(n)))
      invariant Bounded(e[..], LIMB_LIMIT)
      invariant n < 254 ==> Settled(e[..])
      invariant t[..] == old(t[..])
    {
      ghost var before := Value(e[..]);
      Multiply(e, e, e);
      ChainSquare(before, Value(e[..]), x, ChainExponent(n + 1));
      SettledIsBounded(e[..]);
      if n != 2 && n != 4 {
        ghost var squared := Value(e[..]);
        Multiply(e, e, t);
        ChainMultiply(squared, Value(e[..]), x, 2 * ChainExponent(n + 1));
        SettledIsBounded(e[..]);
      }
    }
    ChainReachesPMinus2();
    CopyLimbs(r, e);
  }

  // ---- why that is the inverse -----------------------------------------------

  lemma {:induction false} CongruentPower(x: int, y: int, n: nat)
    requires Congruent(x, y)
    ensures Congruent(Exp(x, n), Exp(y, n))
  {
    if n == 0 {
      assert 1 == 1 + 0 * P;
    } else {
      CongruentPower(x, y, n - 1);
      CongruentProduct(x, Exp(x, n - 1), y, Exp(y, n - 1));
    }
  }

  lemma PowerInverts(x: int)
    requires IsPrime(P) && !Congruent(x, 0)
    ensures Congruent(x * Exp(x, P - 2), 1)
  {
    hide Exp, IsPrime;
    var y := x % P;
    assert x == y + (x / P) * P;
    LittleTheorem(P, y);
    var q :| y * Exp(y, P - 2) - 1 == q * P;
    assert y * Exp(y, P - 2) == 1 + q * P;
    CongruentPower(x, y, P - 2);
    CongruentProduct(x, Exp(x, P - 2), y, Exp(y, P - 2));
    CongruentTrans(x * Exp(x, P - 2), y * Exp(y, P - 2), 1);
  }

  lemma ZeroPower(x: int)
    requires Congruent(x, 0)
    ensures Congruent(Exp(x, P - 2), 0)
  {
    assert Exp(x, P - 2) == x * Exp(x, P - 3);
    var k :| x == 0 + k * P;
    assert x * Exp(x, P - 3) == 0 + (k * Exp(x, P - 3)) * P;
  }

  /** The P - 2 power is the inverse of every element but zero exactly because P is
      prime. */
  lemma InvertsAllIffPrime()
    ensures IsPrime(P) <==> forall x :: !Congruent(x, 0) ==> Congruent(x * Exp(x, P - 2), 1)
  {
    hide Exp, Congruent;
    if IsPrime(P) {
      forall x | !Congruent(x, 0) ensures Congruent(x * Exp(x, P - 2), 1) { PowerInverts(x); }
    } else {
      var d :| 1 < d < P && Divides(d, P);
      var m :| P == m * d;
      DivisorHasNoInverse(P, m, d, Exp(d, P - 2));
      NotInverse(d, Exp(d, P - 2));
    }
  }

  lemma NotInverse(d: int, e: int)
    requires forall k :: d * e != 1 + k * P && d != k * P
    ensures !Congruent(d, 0) && !Congruent(d * e, 1)
  {
  }

  lemma DivisorHasNoInverse(p: int, m: int, d: int, e: int)
    requires 1 < d < p && p == m * d
    ensures forall k :: d * e != 1 + k * p && d != k * p
  {
    forall k ensures d * e != 1 + k * p && d != k * p {
      assert k * (m * d) == d * (k * m);
      OnlyOne(d, e - k * m);
      assert d * (e - k * m) == d * e - d * (k * m);
      assert k >= 1 ==> k * p >= p;
      assert k <= -1 ==> k * p <= -p;
    }
  }

  lemma OnlyOne(d: int, f: int)
    requires d > 1
    ensures d * f != 1
  {
    assert f >= 1 ==> d * f >= d;
    assert f <= 0 ==> d * f <= 0;
  }

  /** 2^255 - 19 is prime. */
  lemma ModulusIsPrime()
    ensures IsPrime(P)
  {
    hide IsPrime;
    PrimeModulus();
    assert P == 57896044618658097711785492504343953926634992332820282019728792003956564819949;
  }

  /** `Z`: the P - 2 power of `t`, which is its inverse, or zero for zero. */
  method Invert(r: array<Exact>, t: array<Exact>)
    requires r.Length == t.Length == 16
    requires Bounded(t[..], LIMB_LIMIT)
    modifies r
    ensures Congruent(Value(r[..]), Exp(old(Value(t[..])), P - 2))
    ensures if Congruent(old(Value(t[..])), 0) then Congruent(Value(r[..]), 0) else Congruent(old(Value(t[..])) * Value(r[..]), 1)
    ensures Settled(r[..])
  {
    hide Exp, IsPrime, Congruent;
    ghost var x := Value(t[..]);
    RaiseToPMinus2(r, t);
    SameInverse(x, Exp(x, P - 2), Value(r[..]));
    ModulusIsPrime();
    if Congruent(x, 0) { ZeroPower(x); } else { PowerInverts(x); }
  }

  lemma SameInverse(x: int, e: int, y: int)
    requires Congruent(y, e)
    ensures Congruent(e, 0) ==> Congruent(y, 0)
    ensures Congruent(x * e, 1) ==> Congruent(x * y, 1)
  {
    if Congruent(e, 0) { CongruentTrans(y, e, 0); }
    if Congruent(x * e, 1) {
      assert x == x + 0 * P;
      CongruentProduct(x, y, x, e);
      CongruentTrans(x * y, x * e, 1);
    }
  }
}
