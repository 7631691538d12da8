/** The level of a proof-of-work token: how many zero bits its digest, read as a
    big-endian number, ends in. */
module TrailingZeros {
  import opened Bits

  function DigestValue(d: seq<Byte>): nat {
    if d == [] then 0 else 256 * DigestValue(d[..|d| - 1]) + d[|d| - 1]
  }

  /** The zero bits below the lowest one of a non-zero byte. */
  function ByteZeros(b: Byte): nat
    requires b != 0
  {
    if b % 2 == 1 then 0 else 1 + ByteZeros(b / 2)
  }

  function TrailingZeroBits(d: seq<Byte>): nat {
    if d == [] then 0
    else if d[|d| - 1] == 0 then 8 + TrailingZeroBits(d[..|d| - 1])
    else ByteZeros(d[|d| - 1])
  }

  /** Divisibility by a power of two, one bit at a time. */
  lemma DivisibleStep(v: nat, n: nat)
    requires n >= 1
    ensures v % Pow2(n) == 0 <==> v % 2 == 0 && (v / 2) % Pow2(n - 1) == 0
  {
    HalfRemainder(v, Pow2(n - 1));
  }

  lemma {:induction false} LastByteDecides(h: nat, b: Byte, k: nat, n: nat)
    requires 0 < b < Pow2(k)
    ensures (h * Pow2(k) + b) % Pow2(n) == 0 <==> ByteZeros(b) >= n
    decreases k
  {
    if n != 0 {
      var v := h * Pow2(k) + b;
      assert v == 2 * (h * Pow2(k - 1)) + b;
      DivisibleStep(v, n);
      if b % 2 == 0 {
        assert v / 2 == h * Pow2(k - 1) + b / 2;
        LastByteDecides(h, b / 2, k - 1, n - 1);
      }
    }
  }

  lemma Doubled(h: int, x: int)
    ensures h * (2 * x) == 2 * (h * x)
  {
  }

  lemma {:induction false} ShiftedDivisible(h: nat, k: nat, n: nat)
    ensures (h * Pow2(k)) % Pow2(n) == 0 <==> n <= k || h % Pow2(n - k) == 0
    decreases k
  {
    if k != 0 && n != 0 {
      var v := h * Pow2(k);
      Doubled(h, Pow2(k - 1));
      DivisibleStep(v, n);
      ShiftedDivisible(h, k - 1, n - 1);
    } else if n == 0 {
      assert (h * Pow2(k)) % 1 == 0;
    }
  }

  /** The count is what the token format asks for: the digest ends in at least
      `n` zero bits exactly when 2^n divides it. */
  lemma {:induction false} LevelIsDivisibility(d: seq<Byte>, n: nat)
    requires n <= 8 * |d|
    ensures TrailingZeroBits(d) >= n <==> DigestValue(d) % Pow2(n) == 0
  {
    if d != [] {
      var h, b := DigestValue(d[..|d| - 1]), d[|d| - 1];
      Pow2Values();
      if b == 0 {
        ShiftedDivisible(h, 8, n);
        if n > 8 {
          LevelIsDivisibility(d[..|d| - 1], n - 8);
        }
      } else {
        LastByteDecides(h, b, 8, n);
      }
    }
  }

  /** `trailing_zero_bits` of pow.c. */
  method CountTrailingZeros(digest: seq<Byte>) returns (n: nat)
    requires |digest| == 32
    ensures n == TrailingZeroBits(digest)
  {
    n := 0;
    var i := 31;
    assert digest[..32] == digest;
    while i >= 0
      invariant -1 <= i <= 31
      invariant n + TrailingZeroBits(digest[..i + 1]) == TrailingZeroBits(digest)
    {
      assert digest[..i + 1][..i] == digest[..i];
      if digest[i] == 0 {
        n := n + 8;
        i := i - 1;
        continue;
      }
      var b := digest[i];
      while b % 2 == 0
        invariant b != 0
        invariant n + ByteZeros(b) == TrailingZeroBits(digest)
        decreases b
      {
        n := n + 1;
        b := b / 2;
      }
      return;
    }
  }

  /** `pow_trailing_zero_bits` of main.rs, and `trailingZeroBits` of pow.swift: from
      the last byte down, to the first that is not zero. */
  method CountTrailingZerosRev(digest: seq<Byte>) returns (bits: nat)
    ensures bits == TrailingZeroBits(digest)
  {
    bits := 0;
    var i := |digest|;
    assert digest[..i] == digest;
    while i > 0
      invariant 0 <= i <= |digest|
      invariant bits + TrailingZeroBits(digest[..i]) == TrailingZeroBits(digest)
    {
      assert digest[..i][..i - 1] == digest[..i - 1];
      i := i - 1;
      if digest[i] != 0 {
        bits := bits + ByteZeros(digest[i]);
        return;
      }
      bits := bits + 8;
    }
  }

  // ---- the browser's count -------------------------------------------------

  /** `Math.clz32` of a positive number. */
  function Clz32(x: nat): nat
    requires 0 < x < 0x1_0000_0000
    decreases 0x1_0000_0000 - x
  {
    if x >= 0x8000_0000 then 0 else 1 + Clz32(2 * x)
  }

  lemma {:induction false} AndComplement(w: nat, x: int)
    ensures And(w, x, Not(x)) == 0
  {
    if w != 0 {
      AndComplement(w - 1, x / 2);
      assert Not(x) / 2 == Not(x / 2);
    }
  }

  lemma {:induction false} LowestBit(w: nat, b: int)
    requires 0 < b < 256 && b < Pow2(w)
    ensures And(w, b, -b) == Pow2(ByteZeros(b))
  {
    if b % 2 == 1 {
      assert (-b) / 2 == Not(b / 2);
      AndComplement(w - 1, b / 2);
    } else {
      assert (-b) / 2 == -(b / 2);
      LowestBit(w - 1, b / 2);
    }
  }

  lemma {:induction false} ClzOfPower(k: nat)
    requires k <= 31
    ensures Pow2(k) < 0x1_0000_0000 && Clz32(Pow2(k)) == 31 - k
    decreases 31 - k
  {
    Pow2Values();
    if k < 31 {
      Pow2Grows(k + 1, 31);
      ClzOfPower(k + 1);
    }
  }

  lemma {:induction false} ByteZerosBound(b: Byte, k: nat)
    requires 0 < b < Pow2(k)
    ensures ByteZeros(b) < k
  {
    if b % 2 == 0 {
      ByteZerosBound(b / 2, k - 1);
    }
  }

  /** `trailingZeroBits` of pow.js counts a byte's zeros through the lowest set
      bit, `31 - clz32(b & -b)`. */
  method CountTrailingZerosJs(digest: seq<Byte>) returns (n: nat)
    requires |digest| == 32
    ensures n == TrailingZeroBits(digest)
  {
    n := 0;
    var i := 31;
    assert digest[..32] == digest;
    while i >= 0
      invariant -1 <= i <= 31
      invariant n + TrailingZeroBits(digest[..i + 1]) == TrailingZeroBits(digest)
    {
      assert digest[..i + 1][..i] == digest[..i];
      var b: int := digest[i];
      if b == 0 {
        n := n + 8;
        i := i - 1;
        continue;
      }
      Pow2Values();
      Pow2Grows(8, 31);
      LowestBit(31, b);
      ByteZerosBound(b, 8);
      ClzOfPower(ByteZeros(b));
      n := n + (31 - Clz32(And(31, b, -b)));
      return;
    }
  }
}
