/** The ids of messages: `m_`, the base-36 nanoseconds at which the process started, and
    the base-36 number of ids that it has given out before, both as `u64`. */
module MessageIds {
  import opened Cursors

  const U64: nat := 0x1_0000_0000_0000_0000

  function Digit36(d: nat): char
    requires d < 36
  {
    if d < 10 then '0' + d as char else 'a' + (d - 10) as char
  }

  function Base36(n: nat): string {
    if n < 36 then [Digit36(n)] else Base36(n / 36) + [Digit36(n % 36)]
  }

  function Reversed(s: string): string { if s == [] then [] else Reversed(s[1..]) + [s[0]] }

  lemma {:induction false} ReversedAppend(s: string, c: char)
    ensures Reversed(s + [c]) == [c] + Reversed(s)
  {
    if s == [] {
      assert [c][1..] == [];
    } else {
      assert (s + [c])[1..] == s[1..] + [c];
      ReversedAppend(s[1..], c);
    }
  }

  /** `base36`. */
  method ToBase36(value: nat) returns (text: string)
    ensures text == Base36(value)
  {
    if value == 0 { return "0"; }
    var out, rest := "", value;
    while rest > 0
      invariant if rest > 0 then Base36(rest) + Reversed(out) == Base36(value) else Reversed(out) == Base36(value)
    {
      ReversedAppend(out, Digit36(rest % 36));
      out := out + [Digit36(rest % 36)];
      rest := rest / 36;
    }
    text := Reversed(out);
  }

  /** `next_message_id` in a process that started at `started`, as its `n`-th id. */
  function MessageId(started: nat, n: nat): string { "m_" + Base36(started % U64) + Base36(n % U64) }

  // ---- texts and numbers -----------------------------------------------------

  function Pow36(k: nat): nat { if k == 0 then 1 else 36 * Pow36(k - 1) }

  predicate IsDigit36(c: char) { '0' <= c <= '9' || 'a' <= c <= 'z' }

  function DigitValue(c: char): nat
    requires IsDigit36(c)
  {
    if c <= '9' then c as int - '0' as int else c as int - 'a' as int + 10
  }

  predicate Digits36(s: string) { forall i :: 0 <= i < |s| ==> IsDigit36(s[i]) }

  function Value36(s: string): nat
    requires Digits36(s)
  {
    if s == [] then 0 else 36 * Value36(s[..|s| - 1]) + DigitValue(s[|s| - 1])
  }

  lemma {:induction false} Base36Value(n: nat)
    ensures Base36(n) != [] && Digits36(Base36(n)) && Value36(Base36(n)) == n
  {
    if n >= 36 {
      Base36Value(n / 36);
      assert Base36(n)[..|Base36(n)| - 1] == Base36(n / 36);
    } else {
      assert Base36(n)[..0] == [];
    }
  }

  lemma {:induction false} Base36Length(n: nat, k: nat)
    requires k >= 1
    ensures |Base36(n)| <= k <==> n < Pow36(k)
  {
    if k == 1 {
      assert Pow36(1) == 36 * Pow36(0);
      if n >= 36 { Base36Value(n / 36); }
    } else if n >= 36 {
      Base36Length(n / 36, k - 1);
    } else {
      SomePower(k);
    }
  }

  lemma {:induction false} SomePower(k: nat)
    requires k >= 1
    ensures Pow36(k) >= 36
  {
    if k > 1 { SomePower(k - 1); }
  }

  /** The number whose digits are those of `x` and then those of `y`, `k` of them. */
  function Joined(x: nat, y: nat, k: nat): nat { x * Pow36(k) + y }

  lemma {:induction false} ValueOfBoth(a: string, b: string)
    requires Digits36(a) && Digits36(b)
    ensures Digits36(a + b) && Value36(a + b) == Joined(Value36(a), Value36(b), |b|)
  {
    if b == [] {
      assert a + b == a;
    } else {
      var n := |b| - 1;
      ValueOfBoth(a, b[..n]);
      assert (a + b)[..|a + b| - 1] == a + b[..n];
      NextShift(Value36(a), Pow36(n));
    }
  }

  lemma NextShift(x: int, y: int)
    ensures 36 * (x * y) == x * (36 * y)
  {
  }

  /** Digits of one length are told apart by their value. */
  lemma {:induction false} ValueDetermines(a: string, b: string)
    requires Digits36(a) && Digits36(b) && |a| == |b| && Value36(a) == Value36(b)
    ensures a == b
  {
    if a != [] {
      var n := |a| - 1;
      assert DigitValue(a[n]) < 36 && DigitValue(b[n]) < 36;
      SameDigit(Value36(a[..n]), DigitValue(a[n]), Value36(b[..n]), DigitValue(b[n]));
      ValueDetermines(a[..n], b[..n]);
      assert a == a[..n] + [a[n]] && b == b[..n] + [b[n]];
    }
  }

  lemma SameDigit(x: nat, d: nat, y: nat, e: nat)
    requires d < 36 && e < 36 && 36 * x + d == 36 * y + e
    ensures x == y && d == e
  {
  }

  // ---- what ids are ----------------------------------------------------------

  lemma PowersAround64()
    ensures Pow36(12) < U64 - 12 && U64 < Pow36(13)
  {
    assert Pow36(4) == 1_679_616;
    assert Pow36(8) == 2_821_109_907_456;
  }

  /** Every id passes the test that cursors and batches put ids to, and is short. */
  lemma IdIsValid(started: nat, n: nat)
    ensures ValidId(MessageId(started, n)) && 4 <= |MessageId(started, n)| <= 28
    ensures MessageId(started, n)[..2] == "m_"
  {
    var a, b := Base36(started % U64), Base36(n % U64);
    Base36Value(started % U64);
    Base36Value(n % U64);
    PowersAround64();
    Base36Length(started % U64, 13);
    Base36Length(n % U64, 13);
    hide Base36, Pow36;
    forall i | 0 <= i < |MessageId(started, n)| ensures IdChar(MessageId(started, n)[i]) {
      if i >= 2 { assert IsDigit36((a + b)[i - 2]); }
    }
  }

  lemma SameWithoutPrefix(a: string, b: string, c: string, d: string)
    ensures "m_" + a + b == "m_" + c + d <==> a + b == c + d
  {
    var s, t := "m_" + a + b, "m_" + c + d;
    assert s[2..] == a + b && t[2..] == c + d;
    assert s == "m_" + (a + b) && t == "m_" + (c + d);
  }

  lemma SameTextIff(a: string, b: string, c: string, d: string)
    requires Digits36(a) && Digits36(b) && Digits36(c) && Digits36(d)
    ensures "m_" + a + b == "m_" + c + d
      <==> |a| + |b| == |c| + |d| && Joined(Value36(a), Value36(b), |b|) == Joined(Value36(c), Value36(d), |d|)
  {
    SameWithoutPrefix(a, b, c, d);
    ValueOfBoth(a, b);
    ValueOfBoth(c, d);
    SameIffValue(a + b, c + d);
    hide *;
  }

  lemma SameIffValue(a: string, b: string)
    requires Digits36(a) && Digits36(b)
    ensures a == b <==> |a| == |b| && Value36(a) == Value36(b)
  {
    hide Value36, Digits36;
    if |a| == |b| && Value36(a) == Value36(b) { ValueDetermines(a, b); }
  }

  /** Two ids are the same exactly if they are of one length and their digits, read as one
      number, agree: nothing separates the two numbers in an id. */
  lemma SameIdIff(p: nat, m: nat, q: nat, n: nat)
    ensures var a, b, c, d := Base36(p % U64), Base36(m % U64), Base36(q % U64), Base36(n % U64);
      MessageId(p, m) == MessageId(q, n)
      <==> |a| + |b| == |c| + |d| && Joined(p % U64, m % U64, |b|) == Joined(q % U64, n % U64, |d|)
  {
    Base36Value(p % U64);
    Base36Value(m % U64);
    Base36Value(q % U64);
    Base36Value(n % U64);
    hide Base36, Joined, Value36, Digits36;
    SameTextIff(Base36(p % U64), Base36(m % U64), Base36(q % U64), Base36(n % U64));
  }

  lemma SameParts(a: string, b: string, c: string, d: string)
    requires "m_" + a + b == "m_" + c + d && |a| == |c|
    ensures a == c && b == d
  {
    var s, t := "m_" + a + b, "m_" + c + d;
    assert s[2..2 + |a|] == a && t[2..2 + |c|] == c;
    assert s[2 + |a|..] == b && t[2 + |c|..] == d;
  }

  /** So processes whose start times have the same number of digits, and every process by
      itself, give out different ids, until 2^64 of them. */
  lemma IdsAreDistinct(p: nat, m: nat, q: nat, n: nat)
    requires |Base36(p % U64)| == |Base36(q % U64)|
    ensures MessageId(p, m) == MessageId(q, n) <==> p % U64 == q % U64 && m % U64 == n % U64
  {
    Base36Value(p % U64);
    Base36Value(m % U64);
    Base36Value(q % U64);
    Base36Value(n % U64);
    hide Base36;
    if MessageId(p, m) == MessageId(q, n) {
      SameParts(Base36(p % U64), Base36(m % U64), Base36(q % U64), Base36(n % U64));
    }
  }

  /** Otherwise two processes can give out the same id. */
  lemma SomeIdsCoincide()
    ensures MessageId(1, 37) == MessageId(37, 1)
  {
    SameIdIff(1, 37, 37, 1);
    assert Pow36(1) == 36 && Pow36(2) == 36 * 36;
  }
}
