/** Two tests for primality: trial division, and Pocklington's, from elements whose order
    is a large prime. */
module Primality {
  import opened Fermat

  // ---- congruences -----------------------------------------------------------

  lemma DividesDifference(r: int, a: int, b: int, x: int, y: int)
    requires Divides(r, a - x) && Divides(r, b - y)
    ensures Divides(r, a * b - x * y)
  {
    hide Divides;
    DividesProduct(r, a - x, b);
    DividesProduct(r, b - y, x);
    DividesSum(r, (a - x) * b, x * (b - y));
    assert a * b - x * y == (a - x) * b + x * (b - y);
  }

  lemma RemainderIsCongruent(a: int, m: int)
    requires m > 0
    ensures Divides(m, a - a % m)
  {
    assert a - a % m == (a / m) * m;
  }

  lemma DividesChain(r: int, a: int, b: int, c: int)
    requires Divides(r, a - b) && Divides(r, b - c)
    ensures Divides(r, a - c)
  {
    hide Divides;
    DividesSum(r, a - b, b - c);
    assert (a - b) + (b - c) == a - c;
  }

  // ---- exponents of one ------------------------------------------------------

  /** x^n is 1 modulo r. */
  ghost predicate OneAt(r: int, x: int, n: nat) { Divides(r, Exp(x, n) - 1) }

  lemma {:induction false} OneAtMultiple(r: int, x: int, n: nat, k: nat)
    requires OneAt(r, x, n)
    ensures OneAt(r, x, k * n)
  {
    if k == 0 {
      assert Exp(x, 0) == 1 && Exp(x, 0) - 1 == 0 * r;
    } else {
      OneAtMultiple(r, x, n, k - 1);
      ExpSum(x, n, (k - 1) * n);
      assert n + (k - 1) * n == k * n;
      DividesDifference(r, Exp(x, n), Exp(x, (k - 1) * n), 1, 1);
    }
  }

  /** If x^m and x^n are 1, so is x to the remainder of m by n. */
  lemma OneAtRemainder(r: int, x: int, m: nat, n: nat)
    requires n > 0 && OneAt(r, x, m) && OneAt(r, x, n)
    ensures OneAt(r, x, m % n)
  {
    var k := m / n;
    assert k * n + m % n == m;
    OneAtMultiple(r, x, n, k);
    ExpSum(x, k * n, m % n);
    var rest := Exp(x, m % n);
    hide Divides;
    DividesProduct(r, Exp(x, k * n) - 1, rest);
    assert (Exp(x, k * n) - 1) * rest == Exp(x, m) - rest;
    DividesSum(r, Exp(x, m) - 1, Exp(x, m) - rest);
  }

  /** If x^q is 1 for a prime q, and x^k for a smaller k, then x is 1. */
  lemma {:induction false} OneBelowPrime(r: int, x: int, q: nat, k: nat)
    requires IsPrime(q) && 0 < k < q && OneAt(r, x, q) && OneAt(r, x, k)
    ensures OneAt(r, x, 1)
    decreases k
  {
    if k > 1 {
      OneAtRemainder(r, x, q, k);
      assert q == (q / k) * k + q % k;
      NoWholeQuotient(q, k, q / k);
      OneBelowPrime(r, x, q, q % k);
    }
  }

  lemma {:induction false} ExpProduct(x: int, m: nat, n: nat)
    ensures Exp(Exp(x, m), n) == Exp(x, m * n)
  {
    if n > 0 {
      ExpProduct(x, m, n - 1);
      ExpSum(x, m, m * (n - 1));
      assert m + m * (n - 1) == m * n;
    }
  }

  lemma DividesThrough(r: int, n: int, c: int)
    requires Divides(r, n) && Divides(n, c)
    ensures Divides(r, c)
  {
    var j, k :| n == j * r && c == k * n;
    assert c == (k * j) * r;
  }

  lemma NotDividesOne(r: int)
    requires r > 1
    ensures !Divides(r, 1) && !Divides(r, -1)
  {
    forall k ensures 1 != k * r && -1 != k * r {
      assert k >= 1 ==> k * r >= r;
      assert k <= -1 ==> k * r <= -r;
    }
  }

  /** A number with a power that is 1 modulo r is not a multiple of r. */
  lemma UnitIsNotZero(r: int, x: int, n: nat)
    requires r > 1 && n > 0 && OneAt(r, x, n)
    ensures !Divides(r, x)
  {
    if Divides(r, x) {
      DividesProduct(r, x, Exp(x, n - 1));
      assert Exp(x, n) == x * Exp(x, n - 1);
      hide Divides;
      DividesSum(r, Exp(x, n), Exp(x, n) - 1);
      NotDividesOne(r);
    }
  }

  /** Fermat's theorem for any x that r does not divide. */
  lemma FermatAt(r: nat, x: int)
    requires IsPrime(r) && !Divides(r, x)
    ensures OneAt(r, x, r - 1)
  {
    var y := x % r;
    RemainderIsCongruent(x, r);
    assert y == 0 ==> x - y == x;
    LittleTheorem(r, y);
    assert Exp(y, r - 1) == y * Exp(y, r - 2);
    hide Divides;
    CongruentPowers(r, x, y, r - 1);
    DividesChain(r, Exp(x, r - 1), Exp(y, r - 1), 1);
  }

  lemma {:induction false} CongruentPowers(r: int, x: int, y: int, n: nat)
    requires Divides(r, x - y)
    ensures Divides(r, Exp(x, n) - Exp(y, n))
  {
    hide Divides;
    if n == 0 {
      DividesItself(r, 0);
    } else {
      CongruentPowers(r, x, y, n - 1);
      DividesDifference(r, x, Exp(x, n - 1), y, Exp(y, n - 1));
    }
  }

  /** x has order q modulo every prime divisor of n: x^q is 1, and x - 1 has the inverse c. */
  ghost predicate HasOrder(n: nat, q: nat, x: nat, c: nat) {
    n > 1 && Divides(n, Exp(x, q) - 1) && Divides(n, (x - 1) * c - 1)
  }

  /** Then every prime divisor r of n has the prime q as a divisor of r - 1. */
  lemma Pocklington(n: nat, q: nat, x: nat, c: nat, r: nat)
    requires HasOrder(n, q, x, c) && IsPrime(q) && IsPrime(r) && Divides(r, n)
    ensures Divides(q, r - 1)
  {
    DividesThrough(r, n, Exp(x, q) - 1);
    DividesThrough(r, n, (x - 1) * c - 1);
    UnitIsNotZero(r, x, q);
    FermatAt(r, x);
    var k := (r - 1) % q;
    OneAtRemainder(r, x, r - 1, q);
    if k > 0 {
      OneBelowPrime(r, x, q, k);
      assert Exp(x, 1) == x * Exp(x, 0) == x;
      DividesProduct(r, x - 1, c);
      hide Divides;
      DividesSum(r, (x - 1) * c, (x - 1) * c - 1);
      NotDividesOne(r);
    } else {
      assert r - 1 == ((r - 1) / q) * q;
    }
  }

  /** A number that is not prime has a prime divisor up to its square root. */
  lemma SmallPrimeDivisor(n: nat, d: nat) returns (r: nat)
    requires 1 < d < n && Divides(d, n)
    ensures IsPrime(r) && Divides(r, n) && r * r <= n
  {
    var m :| n == m * d;
    SmallerFactor(n, m, d);
    var e: nat := if m < d then m else d;
    assert n == d * m;
    r := PrimeDivisor(e);
    DividesThrough(r, e, n);
    hide IsPrime;
    DivisorIsSmaller(r, e);
    SquaresGrow(r, e);
  }

  lemma SmallerFactor(n: int, m: int, d: int)
    requires 1 < d < n && n == m * d
    ensures 1 < m && (m < d ==> m * m <= n) && (m >= d ==> d * d <= n)
  {
    assert m <= 1 ==> m * d <= d;
  }

  lemma DivisorIsSmaller(r: int, e: int)
    requires r > 0 && e > 0 && Divides(r, e)
    ensures r <= e
  {
    var k :| e == k * r;
    assert k <= 0 ==> k * r <= 0;
    assert k >= 1 ==> k * r >= r;
  }

  lemma SquaresGrow(a: nat, b: nat)
    requires a <= b
    ensures a * a <= b * b
  {
  }

  lemma {:induction false} PrimeDivisor(e: nat) returns (r: nat)
    requires e > 1
    ensures IsPrime(r) && Divides(r, e)
  {
    if d: nat :| 1 < d < e && Divides(d, e) {
      r := PrimeDivisor(d);
      DividesThrough(r, d, e);
    } else {
      assert e == 1 * e;
      r := e;
      assert IsPrime(e) by {
        forall d | 1 < d < e ensures !Divides(d, e) { assert d as nat == d; }
      }
    }
  }

  // ---- small primes ----------------------------------------------------------

  /** No number from `d` up to the square root divides n. */
  predicate NoDivisorFrom(n: nat, d: nat)
    requires d > 1
    decreases n - d
  {
    d * d > n || (n % d != 0 && NoDivisorFrom(n, d + 1))
  }

  lemma {:induction false} NoDivisorAt(n: nat, d: nat, r: nat)
    requires 1 < d <= r && NoDivisorFrom(n, d) && r * r <= n
    ensures n % r != 0
    decreases r - d
  {
    SquaresGrow(d, r);
    if d < r { NoDivisorAt(n, d + 1, r); }
  }

  /** Trial division. */
  lemma PrimeByTrial(n: nat)
    requires n > 1 && NoDivisorFrom(n, 2)
    ensures IsPrime(n)
  {
    if d :| 1 < d < n && Divides(d, n) {
      var r := SmallPrimeDivisor(n, d);
      NoDivisorAt(n, 2, r);
      hide NoDivisorFrom, IsPrime;
      var k :| n == k * r;
      MultipleLeavesNothing(k, r);
    }
  }

  lemma MultipleLeavesNothing(k: int, r: int)
    requires r > 0
    ensures (k * r) % r == 0
  {
    var n := k * r;
    var d := k - n / r;
    assert n == (n / r) * r + n % r;
    assert d * r == n % r;
    assert d >= 1 ==> d * r >= r;
    assert d <= -1 ==> d * r <= -r;
  }

  // ---- large primes ----------------------------------------------------------

  /** One prime q beyond the square root of n is enough. */
  lemma PrimeByOne(n: nat, q: nat, x: nat, c: nat)
    requires HasOrder(n, q, x, c) && IsPrime(q) && q * q > n
    ensures IsPrime(n)
  {
    if d :| 1 < d < n && Divides(d, n) {
      var r := SmallPrimeDivisor(n, d);
      Pocklington(n, q, x, c, r);
      DivisorIsSmaller(q, r - 1);
      SquaresGrow(q, r);
    }
  }

  /** Two primes are, when their product is. */
  lemma PrimeByTwo(n: nat, q: nat, x: nat, c: nat, q': nat, x': nat, c': nat)
    requires HasOrder(n, q, x, c) && IsPrime(q) && HasOrder(n, q', x', c') && IsPrime(q')
    requires q < q' && (q * q') * (q * q') > n
    ensures IsPrime(n)
  {
    if d :| 1 < d < n && Divides(d, n) {
      var r := SmallPrimeDivisor(n, d);
      Pocklington(n, q, x, c, r);
      Pocklington(n, q', x', c', r);
      BothDivide(q, q', r - 1);
      DivisorIsSmaller(q * q', r - 1);
      SquaresGrow(q * q', r);
    }
  }

  lemma BothDivide(q: nat, q': nat, e: int)
    requires IsPrime(q) && IsPrime(q') && q < q' && Divides(q, e) && Divides(q', e)
    ensures Divides(q * q', e) && q * q' > 0
  {
    var m :| e == m * q;
    assert q * m == e;
    Euclid(q', q, m);
    var k :| m == k * q';
    assert e == k * (q * q');
  }

  // ---- powers by squaring, eight bits at a time ------------------------------

  /** y is x^2, times b if the bit is set, modulo m. */
  predicate Turn(m: nat, b: nat, x: nat, bit: nat, y: nat)
    requires m > 0
  {
    if bit == 0 then x * x % m == y else bit == 1 && x * x * b % m == y
  }

  /** x is b^n modulo m. */
  ghost predicate IsPower(m: nat, b: nat, n: nat, x: int) { Divides(m, Exp(b, n) - x) }

  lemma ZerothPower(m: nat, b: nat)
    ensures IsPower(m, b, 0, 1)
  {
    assert Exp(b, 0) - 1 == 0 * m;
  }

  lemma OneTurn(m: nat, b: nat, n: nat, x: nat, bit: nat, y: nat)
    requires m > 0 && IsPower(m, b, n, x) && Turn(m, b, x, bit, y)
    ensures bit <= 1 && IsPower(m, b, 2 * n + bit, y)
  {
    hide Divides;
    ExpSum(b, n, n);
    DividesDifference(m, Exp(b, n), Exp(b, n), x, x);
    if bit == 0 {
      RemainderIsCongruent(x * x, m);
      DividesChain(m, Exp(b, n + n), x * x, y);
    } else {
      DividesItself(m, 0);
      DividesDifference(m, Exp(b, n + n), b, x * x, b);
      RemainderIsCongruent(x * x * b, m);
      DividesChain(m, Exp(b, n + n) * b, x * x * b, y);
      assert Exp(b, 2 * n + 1) == b * Exp(b, n + n);
    }
  }

  /** Eight turns, with the bits `d7` to `d0` and the powers that they give. */
  lemma Next(m: nat, b: nat, n: nat, x: nat,
             d7: nat, d6: nat, d5: nat, d4: nat, d3: nat, d2: nat, d1: nat, d0: nat,
             y7: nat, y6: nat, y5: nat, y4: nat, y3: nat, y2: nat, y1: nat, y0: nat) returns (n': nat)
    requires m > 0 && IsPower(m, b, n, x)
    requires Turn(m, b, x, d7, y7) && Turn(m, b, y7, d6, y6) && Turn(m, b, y6, d5, y5) && Turn(m, b, y5, d4, y4)
    requires Turn(m, b, y4, d3, y3) && Turn(m, b, y3, d2, y2) && Turn(m, b, y2, d1, y1) && Turn(m, b, y1, d0, y0)
    ensures n' == 256 * n + 128 * d7 + 64 * d6 + 32 * d5 + 16 * d4 + 8 * d3 + 4 * d2 + 2 * d1 + d0
    ensures IsPower(m, b, n', y0)
  {
    hide IsPower, Turn;
    OneTurn(m, b, n, x, d7, y7);
    OneTurn(m, b, 2 * n + d7, y7, d6, y6);
    var n2 := 4 * n + 2 * d7 + d6;
    OneTurn(m, b, n2, y6, d5, y5);
    OneTurn(m, b, 2 * n2 + d5, y5, d4, y4);
    var n4 := 4 * n2 + 2 * d5 + d4;
    OneTurn(m, b, n4, y4, d3, y3);
    OneTurn(m, b, 2 * n4 + d3, y3, d2, y2);
    var n6 := 4 * n4 + 2 * d3 + d2;
    OneTurn(m, b, n6, y2, d1, y1);
    OneTurn(m, b, 2 * n6 + d1, y1, d0, y0);
    n' := 4 * n6 + 2 * d1 + d0;
  }

  lemma HasInverse(n: nat, x: nat, c: nat, k: nat)
    requires x * c - c - 1 == k * n
    ensures Divides(n, (x - 1) * c - 1)
  {
    assert (x - 1) * c - 1 == k * n;
  }
}
