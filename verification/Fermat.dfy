/** Fermat's little theorem, for the exponent that inverts in a prime field. */
module Fermat {

  function Exp(x: int, n: nat): int
    decreases n, x
  {
    if n == 0 then 1 else x * Exp(x, n - 1)
  }

  lemma {:induction false} ExpSum(x: int, m: nat, n: nat)
    ensures Exp(x, m + n) == Exp(x, m) * Exp(x, n)
  {
    if m != 0 {
      ExpSum(x, m - 1, n);
      assert x * (Exp(x, m - 1) * Exp(x, n)) == (x * Exp(x, m - 1)) * Exp(x, n);
    }
  }

  ghost predicate Divides(p: int, c: int) { exists q :: c == q * p }

  ghost predicate IsPrime(p: int) {
    p >= 2 && forall d :: 1 < d < p ==> !Divides(d, p)
  }

  lemma DividesSum(p: int, a: int, b: int)
    requires Divides(p, a) && Divides(p, b)
    ensures Divides(p, a + b) && Divides(p, a - b)
  {
    var i, j :| a == i * p && b == j * p;
    assert a + b == (i + j) * p && a - b == (i - j) * p;
  }

  lemma DividesProduct(p: int, a: int, k: int)
    requires Divides(p, a)
    ensures Divides(p, k * a) && Divides(p, a * k)
  {
    var i :| a == i * p;
    assert k * a == (k * i) * p;
  }

  /** The remainder of p by k, times c, from the two multiples. */
  lemma RemainderTimes(p: int, k: int, c: int, q: int, r: int)
    requires p == q * k + r
    ensures r * c == p * c - q * (k * c)
  {
    assert (q * k) * c == q * (k * c);
  }

  lemma NoWholeQuotient(p: int, k: int, q: int)
    requires IsPrime(p) && 1 < k < p
    ensures p != q * k
  {
    assert !Divides(k, p);
  }

  /** A prime that divides k c, for 0 < k < p, divides c: from k to a smaller remainder. */
  lemma {:induction false} Euclid(p: int, k: int, c: int)
    requires IsPrime(p) && 0 < k < p && Divides(p, k * c)
    ensures Divides(p, c)
    decreases k
  {
    if k == 1 {
      assert 1 * c == c;
    } else {
      var q, r := p / k, p % k;
      assert p == q * k + r;
      NoWholeQuotient(p, k, q);
      hide Divides, IsPrime;
      DividesItself(p, c);
      DividesProduct(p, k * c, q);
      DividesSum(p, p * c, q * (k * c));
      RemainderTimes(p, k, c, q, r);
      Euclid(p, r, c);
    }
  }

  lemma DividesItself(p: int, c: int)
    ensures Divides(p, p * c)
  {
    assert p * c == c * p;
  }

  // ---- the binomial theorem --------------------------------------------------

  function Choose(n: nat, k: nat): nat {
    if k == 0 then 1 else if n == 0 then 0 else Choose(n - 1, k - 1) + Choose(n - 1, k)
  }

  lemma {:induction false} ChooseEnds(n: nat, k: nat)
    requires k >= n
    ensures Choose(n, k) == if k == n then 1 else 0
  {
    if n > 0 {
      ChooseEnds(n - 1, k - 1);
      ChooseEnds(n - 1, k);
    }
  }

  lemma {:induction false} Absorb(n: nat, k: nat)
    requires n >= 1 && k >= 1
    ensures k * Choose(n, k) == n * Choose(n - 1, k - 1)
  {
    if n == 1 {
      ChooseEnds(0, k);
      ChooseEnds(0, k - 1);
    } else if k > 1 {
      Absorb(n - 1, k);
      Absorb(n - 1, k - 1);
      AbsorbStep(n, k, Choose(n - 1, k - 1), Choose(n - 1, k), Choose(n - 2, k - 2), Choose(n - 2, k - 1));
    } else {
      Absorb(n - 1, 1);
      assert Choose(n - 1, 0) == 1 == Choose(n - 2, 0);
    }
  }

  lemma AbsorbStep(n: int, k: int, a: int, b: int, c: int, d: int)
    requires a == c + d && (k - 1) * a == (n - 1) * c && k * b == (n - 1) * d
    ensures k * (a + b) == n * a
  {
    assert (n - 1) * (c + d) == (n - 1) * c + (n - 1) * d;
  }

  /** The terms of (1 + x)^n up to the power `j`. */
  function Terms(x: int, n: nat, j: nat): int {
    Choose(n, j) * Exp(x, j) + if j == 0 then 0 else Terms(x, n, j - 1)
  }

  lemma TermsUnfold(x: int, n: nat, j: nat)
    requires j >= 1
    ensures Terms(x, n, j) == Choose(n, j) * Exp(x, j) + Terms(x, n, j - 1)
  {
  }

  lemma {:induction false} TermsStep(x: int, n: nat, j: nat)
    ensures Terms(x, n + 1, j + 1) == Terms(x, n, j + 1) + x * Terms(x, n, j)
  {
    var e, a, b := Exp(x, j), Choose(n, j), Choose(n, j + 1);
    assert Exp(x, j + 1) == x * e && Choose(n + 1, j + 1) == a + b;
    TermsUnfold(x, n + 1, j + 1);
    TermsUnfold(x, n, j + 1);
    TermStep(a, b, x, e);
    if j == 0 {
      assert Terms(x, n, 0) == 1 == Terms(x, n + 1, 0) && a * e == 1;
    } else {
      TermsUnfold(x, n, j);
      TermsStep(x, n, j - 1);
      hide Terms, Choose, Exp;
      Distribute(x, a * e, Terms(x, n, j - 1));
    }
  }

  lemma Distribute(x: int, a: int, b: int)
    ensures x * (a + b) == x * a + x * b
  {
  }

  lemma TermStep(a: int, b: int, x: int, e: int)
    ensures (a + b) * (x * e) == b * (x * e) + x * (a * e)
  {
  }

  lemma {:induction false} Binomial(x: int, n: nat)
    ensures Terms(x, n, n) == Exp(1 + x, n)
  {
    if n > 0 {
      var m := n - 1;
      Binomial(x, m);
      TermsStep(x, m, m);
      ChooseEnds(m, n);
      TermsUnfold(x, m, n);
      assert Exp(1 + x, n) == (1 + x) * Exp(1 + x, m);
      hide Terms, Choose, Exp;
      assert (1 + x) * Terms(x, m, m) == Terms(x, m, m) + x * Terms(x, m, m);
    }
  }

  // ---- the theorem -----------------------------------------------------------

  /** A prime divides all the inner terms. */
  lemma {:induction false} InnerTerms(p: int, x: int, j: nat)
    requires IsPrime(p) && j < p
    ensures Divides(p, Terms(x, p, j) - 1)
    decreases j
  {
    if j == 0 {
      assert Exp(x, 0) == 1 && Terms(x, p, 0) - 1 == 0 * p;
    } else {
      InnerTerms(p, x, j - 1);
      Absorb(p, j);
      assert p * Choose(p - 1, j - 1) == Choose(p - 1, j - 1) * p;
      Euclid(p, j, Choose(p, j));
      DividesProduct(p, Choose(p, j), Exp(x, j));
      DividesSum(p, Choose(p, j) * Exp(x, j), Terms(x, p, j - 1) - 1);
    }
  }

  /** x^p is x modulo p. */
  lemma {:induction false} Frobenius(p: int, x: nat)
    requires IsPrime(p)
    ensures Divides(p, Exp(x, p) - x)
  {
    if x == 0 {
      assert Exp(0, p) == 0 * Exp(0, p - 1) == 0;
      assert Exp(0, p) - 0 == 0 * p;
    } else {
      var y := x - 1;
      Frobenius(p, y);
      Binomial(y, p);
      InnerTerms(p, y, p - 1);
      ChooseEnds(p, p);
      assert Terms(y, p, p) == 1 * Exp(y, p) + Terms(y, p, p - 1);
      DividesSum(p, Terms(y, p, p - 1) - 1, Exp(y, p) - y);
    }
  }

  /** For 0 < x < p, x times x^(p - 2) is 1 modulo p. */
  lemma LittleTheorem(p: int, x: int)
    requires IsPrime(p) && 0 < x < p
    ensures Divides(p, x * Exp(x, p - 2) - 1)
  {
    Frobenius(p, x);
    var inverse := x * Exp(x, p - 2);
    assert Exp(x, p - 1) == inverse;
    assert Exp(x, p) == x * inverse;
    assert Exp(x, p) - x == x * (inverse - 1);
    Euclid(p, x, inverse - 1);
  }
}
