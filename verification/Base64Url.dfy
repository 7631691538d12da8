/** Unpadded canonical base64url (section 5 of RFC 4648, with the strictness of
    its section 3.5), as pow.c writes it by hand.  Text is the bytes of a C
    string. */
module Base64Url {
  import opened Bits
  import opened Wrappers

  type Sextet = v: int | 0 <= v < 64

  // ---- the definition ------------------------------------------------------

  /** The alphabet: A-Z, a-z, 0-9, '-', '_'. */
  function Letter(v: Sextet): Byte {
    if v < 26 then 65 + v
    else if v < 52 then 71 + v
    else if v < 62 then v - 4
    else if v == 62 then 45
    else 95
  }

  /** The value of a letter; the program's `rev` table holds -1 for the rest. */
  function Reverse(c: Byte): (v: int)
    ensures -1 <= v < 64
    ensures v >= 0 ==> Letter(v) == c
    ensures forall w: Sextet :: Letter(w) == c ==> v == w
  {
    if 65 <= c <= 90 then c as int - 65
    else if 97 <= c <= 122 then c as int - 71
    else if 48 <= c <= 57 then c as int + 4
    else if c == 45 then 62
    else if c == 95 then 63
    else -1
  }

  // The four sextets of three bytes, and the three bytes of four sextets.
  function S0(a: Byte): Sextet { a / 4 }
  function S1(a: Byte, b: Byte): Sextet { a % 4 * 16 + b / 16 }
  function S2(b: Byte, c: Byte): Sextet { b % 16 * 4 + c / 64 }
  function S3(c: Byte): Sextet { c % 64 }
  function B0(w: Sextet, x: Sextet): Byte { (w as int) * 4 + x / 16 }
  function B1(x: Sextet, y: Sextet): Byte { (x as int) % 16 * 16 + y / 4 }
  function B2(y: Sextet, z: Sextet): Byte { (y as int) % 4 * 64 + z }

  lemma BytesThere(a: Byte, b: Byte, c: Byte)
    ensures B0(S0(a), S1(a, b)) == a && B1(S1(a, b), S2(b, c)) == b && B2(S2(b, c), S3(c)) == c
    ensures S1(a, 0) % 16 == 0 && S2(b, 0) % 4 == 0
  {
  }

  lemma BytesBack(w: Sextet, x: Sextet, y: Sextet, z: Sextet)
    ensures S0(B0(w, x)) == w && S1(B0(w, x), B1(x, y)) == x
    ensures S2(B1(x, y), B2(y, z)) == y && S3(B2(y, z)) == z
    ensures x % 16 == 0 ==> S1(B0(w, x), 0) == x
    ensures y % 4 == 0 ==> S2(B1(x, y), 0) == y
  {
  }

  function Sextets(data: seq<Byte>): (d: seq<Sextet>) {
    if |data| == 0 then []
    else if |data| == 1 then [S0(data[0]), S1(data[0], 0)]
    else if |data| == 2 then [S0(data[0]), S1(data[0], data[1]), S2(data[1], 0)]
    else [S0(data[0]), S1(data[0], data[1]), S2(data[1], data[2]), S3(data[2])] + Sextets(data[3..])
  }

  function Letters(d: seq<Sextet>): (text: seq<Byte>)
    ensures |text| == |d|
    ensures forall i :: 0 <= i < |d| ==> text[i] == Letter(d[i])
  {
    seq(|d|, i requires 0 <= i < |d| => Letter(d[i]))
  }

  function Encode(data: seq<Byte>): (text: seq<Byte>) {
    Letters(Sextets(data))
  }

  /** The length the inbox budgets for: four letters for three bytes, rounded
      up. */
  lemma {:induction false} EncodedLength(data: seq<Byte>)
    ensures |Encode(data)| == (4 * |data| + 2) / 3
  {
    if |data| >= 3 {
      EncodedLength(data[3..]);
      assert |Sextets(data)| == 4 + |Sextets(data[3..])|;
    }
  }

  /** The whole bytes in a run of sextets. */
  function WholeBytes(d: seq<Sextet>): seq<Byte> {
    if |d| <= 1 then []
    else if |d| == 2 then [B0(d[0], d[1])]
    else if |d| == 3 then [B0(d[0], d[1]), B1(d[1], d[2])]
    else [B0(d[0], d[1]), B1(d[1], d[2]), B2(d[2], d[3])] + WholeBytes(d[4..])
  }

  /** The bits of the last sextet that belong to no byte. */
  function SpareBits(d: seq<Sextet>): nat {
    if |d| == 0 then 0
    else if |d| == 1 then d[0]
    else if |d| == 2 then d[1] % 16
    else if |d| == 3 then d[2] % 4
    else SpareBits(d[4..])
  }

  ghost predicate InAlphabet(text: seq<Byte>) {
    forall i :: 0 <= i < |text| ==> Reverse(text[i]) >= 0
  }

  function Values(text: seq<Byte>): (d: seq<Sextet>)
    requires InAlphabet(text)
    ensures |d| == |text|
    ensures forall i :: 0 <= i < |text| ==> d[i] == Reverse(text[i])
  {
    seq(|text|, i requires 0 <= i < |text| => Reverse(text[i]))
  }

  ghost function Decode(text: seq<Byte>): Option<seq<Byte>> {
    if |text| % 4 == 1 || !InAlphabet(text) || SpareBits(Values(text)) != 0 then None
    else Some(WholeBytes(Values(text)))
  }

  // ---- encoding and decoding are inverse -----------------------------------

  lemma {:induction false} BytesOfSextets(data: seq<Byte>)
    ensures WholeBytes(Sextets(data)) == data
    ensures SpareBits(Sextets(data)) == 0 && |Sextets(data)| % 4 != 1
  {
    hide S0, S1, S2, S3, B0, B1, B2;
    if |data| == 1 {
      BytesThere(data[0], 0, 0);
    } else if |data| == 2 {
      BytesThere(data[0], data[1], 0);
    } else if |data| >= 3 {
      var rest := data[3..];
      BytesOfSextets(rest);
      BytesThere(data[0], data[1], data[2]);
      assert Sextets(data)[4..] == Sextets(rest);
      assert data == [data[0], data[1], data[2]] + rest;
    }
  }

  lemma {:induction false} SextetsOfBytes(d: seq<Sextet>)
    requires |d| % 4 != 1 && SpareBits(d) == 0
    ensures Sextets(WholeBytes(d)) == d
  {
    hide S0, S1, S2, S3, B0, B1, B2;
    if |d| == 2 {
      BytesBack(d[0], d[1], 0, 0);
    } else if |d| == 3 {
      BytesBack(d[0], d[1], d[2], 0);
    } else if |d| >= 4 {
      var rest := d[4..];
      SextetsOfBytes(rest);
      BytesBack(d[0], d[1], d[2], d[3]);
      assert WholeBytes(d)[3..] == WholeBytes(rest);
      assert d == [d[0], d[1], d[2], d[3]] + rest;
    }
  }

  lemma ValuesOfLetters(d: seq<Sextet>)
    ensures InAlphabet(Letters(d)) && Values(Letters(d)) == d
  {
  }

  lemma LettersOfValues(text: seq<Byte>)
    requires InAlphabet(text)
    ensures Letters(Values(text)) == text
  {
  }

  /** A text decodes to `data` exactly when it is the encoding of `data`: the
      codec is a bijection between byte strings and accepted texts. */
  lemma DecodeInvertsEncode(data: seq<Byte>, text: seq<Byte>)
    ensures Decode(text) == Some(data) <==> text == Encode(data)
  {
    hide Sextets, WholeBytes, SpareBits, Letters, Values, InAlphabet;
    BytesOfSextets(data);
    ValuesOfLetters(Sextets(data));
    if Decode(text) == Some(data) {
      SextetsOfBytes(Values(text));
      LettersOfValues(text);
    }
  }

  // ---- the alphabet and the order of the bits --------------------------------

  /** The alphabet of section 5 of RFC 4648. */
  const ALPHABET := UPPER + LOWER + DIGITS + "-_"
  const UPPER := "ABCDEFGHIJKLMNOPQRSTUVWXYZ"
  const LOWER := "abcdefghijklmnopqrstuvwxyz"
  const DIGITS := "0123456789"

  /** Byte `i`, or 0 after the end. */
  function At(data: seq<Byte>, i: nat): Byte { if i < |data| then data[i] else 0 }

  /** The 24 bits of group `g`, the first byte on top. */
  function Bits24(data: seq<Byte>, g: nat): nat {
    0x1_0000 * At(data, 3 * g) as int + 0x100 * At(data, 3 * g + 1) as int + At(data, 3 * g + 2)
  }

  /** What the sextet with number `k` of a group counts for in its 24 bits. */
  function Weight(k: nat): (w: nat)
    ensures w > 0
  {
    if k == 0 then 0x4_0000 else if k == 1 then 0x1000 else if k == 2 then 0x40 else 1
  }

  lemma LetterIsAlphabet(v: Sextet)
    ensures |ALPHABET| == 64 && Letter(v) == ALPHABET[v] as int
  {
    assert v < 26 ==> ALPHABET[v] == UPPER[v];
    assert 26 <= v < 52 ==> ALPHABET[v] == LOWER[v - 26];
    assert 52 <= v < 62 ==> ALPHABET[v] == DIGITS[v - 52];
  }

  lemma SextetOf(a: Byte, b: Byte, c: Byte, i: nat)
    requires i < 4
    ensures [S0(a), S1(a, b), S2(b, c), S3(c)][i] == (0x1_0000 * a as int + 0x100 * b as int + c) / Weight(i) % 64
  {
    var v := 0x1_0000 * a as int + 0x100 * b as int + c;
    JoinedSextets(a, b, c, v);
    assert v / 0x4_0000 == S0(a) && S0(a) % 64 == S0(a);
    assert (v / 0x1000) % 64 == S1(a, b) && (v / 0x40) % 64 == S2(b, c) && (v / 1) % 64 == S3(c);
    hide S0, S1, S2, S3;
  }

  lemma FirstSextets(data: seq<Byte>, i: nat)
    requires i < 4 && i < |Sextets(data)|
    ensures Sextets(data)[i] == Bits24(data, 0) / Weight(i) % 64
  {
    hide S0, S1, S2, S3, Weight;
    var a, b, c := At(data, 0), At(data, 1), At(data, 2);
    SextetOf(a, b, c, i);
    assert Sextets(data)[i] == [S0(a), S1(a, b), S2(b, c), S3(c)][i] by {
      if |data| >= 3 { assert |data[3..]| == |data| - 3; }
    }
  }

  lemma {:induction false} SextetAt(data: seq<Byte>, i: nat)
    requires i < |Sextets(data)|
    ensures Sextets(data)[i] == Bits24(data, i / 4) / Weight(i % 4) % 64
  {
    hide S0, S1, S2, S3, Weight, Bits24;
    if i < 4 {
      FirstSextets(data, i);
    } else {
      SextetAt(data[3..], i - 4);
      assert Sextets(data)[i] == Sextets(data[3..])[i - 4];
      LaterBits(data, i / 4);
    }
  }

  lemma LaterBits(data: seq<Byte>, g: nat)
    requires |data| >= 3 && g >= 1
    ensures Bits24(data[3..], g - 1) == Bits24(data, g)
  {
    forall j | 3 * g <= j < 3 * g + 3 ensures At(data[3..], j - 3) == At(data, j) {}
  }

  /** Letter `i` of an encoding stands for the bits from 6 i on. */
  lemma EncodedLetter(data: seq<Byte>, i: nat)
    requires i < (4 * |data| + 2) / 3
    ensures |Encode(data)| == (4 * |data| + 2) / 3 && |ALPHABET| == 64
    ensures Encode(data)[i] == ALPHABET[Bits24(data, i / 4) / Weight(i % 4) % 64] as int
  {
    hide Sextets, Letter, Weight, Bits24;
    EncodedLength(data);
    SextetAt(data, i);
    LetterIsAlphabet(Sextets(data)[i]);
  }

  // ---- the program ---------------------------------------------------------

  lemma {:induction false} SextetsAppend(a: seq<Byte>, k: nat, b: seq<Byte>)
    requires |a| == 3 * k
    ensures Sextets(a + b) == Sextets(a) + Sextets(b)
  {
    hide S0, S1, S2, S3;
    if k == 0 {
      assert a + b == b;
    } else {
      SextetsAppend(a[3..], k - 1, b);
      assert (a + b)[3..] == a[3..] + b;
    }
  }

  /** `v >> 18`, `v >> 12 & 63`, `v >> 6 & 63` and `v & 63` of the 24 bits of
      three bytes joined by `|`. */
  lemma TripleBits(a: Byte, b: Byte, c: Byte)
    ensures var v := Join24(a, b, c);
      && v / 0x4_0000 == S0(a)
      && And(32, v / 0x1000, 63) == S1(a, b)
      && And(32, v / 0x40, 63) == S2(b, c)
      && And(32, v, 63) == S3(c)
  {
    hide And, Or, Pow2, Join24;
    Pow2Values();
    Join24Value(a, b, c);
    var v := 0x1_0000 * a as int + 0x100 * b as int + c;
    AndLow(32, v / 0x1000, 6);
    AndLow(32, v / 0x40, 6);
    AndLow(32, v, 6);
    JoinedSextets(a, b, c, v);
  }

  function Join24(a: Byte, b: Byte, c: Byte): Word {
    Or32(Or32(0x1_0000 * a as int, 0x100 * b as int), c)
  }

  lemma Join24Value(a: Byte, b: Byte, c: Byte)
    ensures Join24(a, b, c) == 0x1_0000 * a as int + 0x100 * b as int + c
  {
    hide Or;
    Pow2Values();
    OrAdds(32, 16, a, 0x100 * b as int);
    OrAdds(32, 8, 0x100 * a as int + b, c);
  }

  lemma JoinedSextets(a: int, b: int, c: int, v: int)
    requires 0 <= a < 256 && 0 <= b < 256 && 0 <= c < 256
    requires v == 0x1_0000 * a + 0x100 * b + c
    ensures v / 0x4_0000 == a / 4
    ensures (v / 0x1000) % 64 == a % 4 * 16 + b / 16
    ensures (v / 0x40) % 64 == b % 16 * 4 + c / 64
    ensures v % 64 == c % 64
  {
    assert v == 0x4_0000 * (a / 4) + (0x1_0000 * (a % 4) + 0x100 * b + c);
    assert v == 0x1000 * (16 * a + b / 16) + (0x100 * (b % 16) + c);
    assert v == 0x40 * (0x400 * a + 4 * b + c / 64) + c % 64;
    Quotient(v, 0x4_0000, a / 4);
    Quotient(v, 0x1000, 16 * a + b / 16);
    Quotient(v, 0x40, 0x400 * a + 4 * b + c / 64);
    SixBits(16 * a + b / 16, a / 4, a % 4 * 16 + b / 16);
    SixBits(0x400 * a + 4 * b + c / 64, 0x10 * a + b / 16, b % 16 * 4 + c / 64);
    SixBits(v, 0x400 * a + 4 * b + c / 64, c % 64);
  }

  lemma Quotient(v: int, m: int, q: int)
    requires m == 0x4_0000 || m == 0x1000 || m == 0x40
    requires m * q <= v < m * q + m
    ensures v / m == q
  {
  }

  lemma SixBits(v: int, q: int, r: int)
    requires v == 64 * q + r && 0 <= r < 64
    ensures v % 64 == r
  {
  }

  /** The letters that one, two or three bytes at `i` add. */
  function Group(data: seq<Byte>, i: nat): (text: seq<Byte>)
    requires i < |data|
  {
    if i + 1 == |data| then [Letter(S0(data[i])), Letter(S1(data[i], 0))]
    else if i + 2 == |data| then
      [Letter(S0(data[i])), Letter(S1(data[i], data[i + 1])), Letter(S2(data[i + 1], 0))]
    else
      [Letter(S0(data[i])), Letter(S1(data[i], data[i + 1])),
       Letter(S2(data[i + 1], data[i + 2])), Letter(S3(data[i + 2]))]
  }

  lemma EncodeMore(data: seq<Byte>, k: nat)
    requires 3 * k < |data|
    ensures var to := if 3 * k + 3 <= |data| then 3 * k + 3 else |data|;
      Encode(data[..to]) == Encode(data[..3 * k]) + Group(data, 3 * k)
  {
    hide S0, S1, S2, S3, Letter;
    var to := if 3 * k + 3 <= |data| then 3 * k + 3 else |data|;
    var part := data[3 * k..to];
    assert data[..to] == data[..3 * k] + part;
    SextetsAppend(data[..3 * k], k, part);
    assert Sextets(part[|part|..]) == [];
    assert Letters(Sextets(part)) == Group(data, 3 * k);
    assert Letters(Sextets(data[..3 * k]) + Sextets(part)) == Encode(data[..3 * k]) + Letters(Sextets(part));
  }

  lemma EncodeNothing()
    ensures Encode([]) == []
  {
  }

  /** `b64u_encode`. */
  method EncodeBytes(data: seq<Byte>) returns (text: array<Byte>, n: nat)
    ensures fresh(text) && n <= text.Length && text[..n] == Encode(data)
  {
    hide Encode, Letter, Join24, And, S0, S1, S2, S3;
    EncodedLength(data);
    text := new Byte[(|data| + 2) / 3 * 4];
    n := 0;
    var i := 0;
    ghost var k := 0;
    EncodeNothing();
    assert data[..0] == [];
    while i + 3 <= |data|
      invariant 0 <= i == 3 * k <= |data| && n == 4 * k
      invariant text[..n] == Encode(data[..i])
    {
      EncodeMore(data, k);
      TripleBits(data[i], data[i + 1], data[i + 2]);
      var v := Join24(data[i], data[i + 1], data[i + 2]);
      text[n] := Letter(v / 0x4_0000);
      text[n + 1] := Letter(And(32, v / 0x1000, 63));
      text[n + 2] := Letter(And(32, v / 0x40, 63));
      text[n + 3] := Letter(And(32, v, 63));
      assert text[..n + 4] == text[..n] + Group(data, i);
      i, n, k := i + 3, n + 4, k + 1;
    }
    n := EncodeRest(data, i, k, text, n);
  }

  /** The one or two bytes after the last whole triple. */
  method EncodeRest(data: seq<Byte>, i: nat, ghost k: nat, text: array<Byte>, n: nat) returns (n': nat)
    requires i == 3 * k && i <= |data| < i + 3
    requires n == 4 * k && text.Length == (|data| + 2) / 3 * 4
    requires text[..n] == Encode(data[..i])
    modifies text
    ensures n' <= text.Length && text[..n'] == Encode(data)
  {
    hide Encode, Letter, Join24, And, S0, S1, S2, S3;
    assert data[..|data|] == data;
    n' := n;
    if |data| - i == 1 {
      EncodeMore(data, k);
      TripleBits(data[i], 0, 0);
      var v := Join24(data[i], 0, 0);
      text[n] := Letter(v / 0x4_0000);
      text[n + 1] := Letter(And(32, v / 0x1000, 63));
      assert text[..n + 2] == text[..n] + Group(data, i);
      n' := n + 2;
    } else if |data| - i == 2 {
      EncodeMore(data, k);
      TripleBits(data[i], data[i + 1], 0);
      var v := Join24(data[i], data[i + 1], 0);
      text[n] := Letter(v / 0x4_0000);
      text[n + 1] := Letter(And(32, v / 0x1000, 63));
      text[n + 2] := Letter(And(32, v / 0x40, 63));
      assert text[..n + 3] == text[..n] + Group(data, i);
      n' := n + 3;
    }
  }

  lemma {:induction false} GroupsSplit(a: seq<Sextet>, k: nat, b: seq<Sextet>)
    requires |a| == 4 * k
    ensures WholeBytes(a + b) == WholeBytes(a) + WholeBytes(b)
    ensures SpareBits(a + b) == SpareBits(b)
  {
    hide B0, B1, B2;
    if k == 0 {
      assert a + b == b;
    } else {
      GroupsSplit(a[4..], k - 1, b);
      assert (a + b)[4..] == a[4..] + b;
    }
  }

  /** Bits not yet in a byte after `j` sextets of a group. */
  function PendingBits(j: nat): nat
    requires j < 4
  {
    if j == 0 then 0 else 8 - 2 * j
  }

  /** The pending bits of the accumulator. */
  function Pending(acc: Word, j: nat): nat
    requires j < 4
  {
    if j == 0 then 0 else if j == 1 then acc % 64 else if j == 2 then acc % 16 else acc % 4
  }

  function NextPhase(j: nat): nat
    requires j < 4
  {
    if j == 3 then 0 else j + 1
  }

  /** The bytes that one more sextet after `j` completes. */
  function Completed(acc: Word, j: nat): seq<Byte>
    requires j < 4
  {
    if j == 0 then [] else [Taken(acc, NextPhase(j))]
  }

  /** The byte taken off the accumulator when `j` sextets of a group are in. */
  function Taken(acc: Word, j: nat): Byte
    requires j < 4
  {
    Shr32(acc, PendingBits(j)) % 0x100
  }

  /** `acc << 6 | v` on 32 bits. */
  function Shifted(acc: Word, v: Sextet): Word {
    Or32((acc * 64) % 0x1_0000_0000, v)
  }

  /** However often the accumulator has wrapped, its low bits are the new
      sextet under the pending ones. */
  lemma ShiftedLow(acc: Word, v: Sextet, spare: nat, j: nat)
    requires j < 4 && Pending(acc, j) == spare
    ensures j == 0 ==> Shifted(acc, v) % 64 == v
    ensures j == 1 ==> Shifted(acc, v) % 0x1000 == 64 * spare + v
    ensures j == 2 ==> Shifted(acc, v) % 0x400 == 64 * spare + v
    ensures j == 3 ==> Shifted(acc, v) % 0x100 == 64 * spare + v
  {
    hide Or;
    Pow2Values();
    var low := acc % 0x400_0000;
    assert (acc * 64) % 0x1_0000_0000 == low * 64;
    OrAdds(32, 6, low, v);
    var wide := acc as int;
    LowUnderSextet(wide, low, v);
  }

  lemma LowUnderSextet(acc: int, low: int, v: int)
    requires acc >= 0 && low == acc % 0x400_0000 && 0 <= v < 64
    ensures (low * 64 + v) % 64 == v
    ensures (low * 64 + v) % 0x1000 == 64 * (acc % 64) + v
    ensures (low * 64 + v) % 0x400 == 64 * (acc % 16) + v
    ensures (low * 64 + v) % 0x100 == 64 * (acc % 4) + v
  {
    var top, x := acc / 0x400_0000, low * 64 + v;
    RemainderUnique(acc, 64, top * 0x10_0000 + low / 64, low % 64);
    RemainderUnique(acc, 16, top * 0x40_0000 + low / 16, low % 16);
    RemainderUnique(acc, 4, top * 0x100_0000 + low / 4, low % 4);
    RemainderUnique(x, 64, low, v);
    RemainderUnique(x, 0x1000, low / 64, 64 * (low % 64) + v);
    RemainderUnique(x, 0x400, low / 16, 64 * (low % 16) + v);
    RemainderUnique(x, 0x100, low / 4, 64 * (low % 4) + v);
  }

  // Within a group: the byte the program takes off the accumulator is the one
  // the definition asks for, and what stays pending are the spare bits.

  ghost predicate Fed(g: seq<Sextet>, acc: Word, v: Sextet)
    requires |g| < 4
  {
    var acc' := Shifted(acc, v);
    && Pending(acc', NextPhase(|g|)) == SpareBits(g + [v])
    && WholeBytes(g + [v]) == WholeBytes(g) + Completed(acc', |g|)
  }

  lemma FeedEmpty(g: seq<Sextet>, acc: Word, v: Sextet)
    requires g == []
    ensures Fed(g, acc, v)
  {
    hide Shifted;
    ShiftedLow(acc, v, 0, 0);
    assert g + [v] == [v];
  }

  lemma FeedOne(g: seq<Sextet>, acc: Word, v: Sextet)
    requires |g| == 1 && Pending(acc, 1) == SpareBits(g)
    ensures Fed(g, acc, v)
  {
    hide Shifted, B0, Shr32;
    ShiftedLow(acc, v, g[0], 1);
    ShiftRight(Shifted(acc, v));
    FirstByte(Shifted(acc, v), g[0], v);
    assert g + [v] == [g[0], v];
  }

  lemma FeedTwo(g: seq<Sextet>, acc: Word, v: Sextet)
    requires |g| == 2 && Pending(acc, 2) == SpareBits(g)
    ensures Fed(g, acc, v)
  {
    hide Shifted, B0, B1, Shr32;
    ShiftedLow(acc, v, g[1] % 16, 2);
    ShiftRight(Shifted(acc, v));
    SecondByte(Shifted(acc, v), g[1], v);
    assert g + [v] == [g[0], g[1], v];
  }

  lemma FeedThree(g: seq<Sextet>, acc: Word, v: Sextet)
    requires |g| == 3 && Pending(acc, 3) == SpareBits(g)
    ensures Fed(g, acc, v)
  {
    hide Shifted, B0, B1, B2, Shr32;
    ShiftedLow(acc, v, g[2] % 4, 3);
    ShiftRight(Shifted(acc, v));
    ThirdByte(Shifted(acc, v), g[2], v);
    assert g + [v] == [g[0], g[1], g[2], v];
    assert (g + [v])[4..] == [];
    assert WholeBytes(g + [v]) == [B0(g[0], g[1]), B1(g[1], g[2]), B2(g[2], v)];
    assert WholeBytes(g) == [B0(g[0], g[1]), B1(g[1], g[2])];
    assert Taken(Shifted(acc, v), 0) == B2(g[2], v);
    assert SpareBits(g + [v]) == 0;
  }

  lemma FeedGroup(g: seq<Sextet>, acc: Word, v: Sextet)
    requires |g| < 4 && Pending(acc, |g|) == SpareBits(g)
    ensures Fed(g, acc, v)
  {
    hide Fed, SpareBits, Pending;
    if |g| == 0 {
      FeedEmpty(g, acc, v);
    } else if |g| == 1 {
      FeedOne(g, acc, v);
    } else if |g| == 2 {
      FeedTwo(g, acc, v);
    } else {
      FeedThree(g, acc, v);
    }
  }

  lemma FirstByte(x: nat, g: Sextet, v: Sextet)
    requires x % 0x1000 == 64 * (g as int) + v
    ensures x % 16 == v % 16 && (x / 16) % 0x100 == B0(g, v)
  {
    TakeByte(x, 0x1000, 16, 4 * (g as int) + v / 16);
  }

  lemma SecondByte(x: nat, g: Sextet, v: Sextet)
    requires x % 0x400 == 64 * (g as int % 16) + v
    ensures x % 4 == v % 4 && (x / 4) % 0x100 == B1(g, v)
  {
    TakeByte(x, 0x400, 4, 16 * (g as int % 16) + v / 4);
  }

  lemma ThirdByte(x: nat, g: Sextet, v: Sextet)
    requires x % 0x100 == 64 * (g as int % 4) + v
    ensures x % 0x100 == B2(g, v)
  {
  }

  lemma ShiftRight(x: Word)
    ensures Shr32(x, 4) == x / 16 && Shr32(x, 2) == x / 4 && Shr32(x, 0) == x
  {
    assert Shr32(x, 2) == Shr32(x / 2, 1);
    assert Shr32(x, 4) == Shr32(x / 2, 3) == Shr32(x / 2 / 2, 2) == Shr32(x / 2 / 2 / 2, 1);
  }

  lemma FeedSextet(d: seq<Sextet>, k: nat, j: nat, acc: Word, v: Sextet)
    requires j < 4 && |d| == 4 * k + j
    requires Pending(acc, j) == SpareBits(d)
    ensures Pending(Shifted(acc, v), NextPhase(j)) == SpareBits(d + [v])
    ensures WholeBytes(d + [v]) == WholeBytes(d) + Completed(Shifted(acc, v), j)
  {
    hide Shifted, Completed, WholeBytes, SpareBits, Pending;
    var head, group := d[..4 * k], d[4 * k..];
    GroupsSplit(head, k, group);
    assert d == head + group;
    GroupsSplit(head, k, group + [v]);
    assert d + [v] == head + (group + [v]);
    FeedGroup(group, acc, v);
  }

  lemma TakeByte(x: nat, m: nat, low: nat, b: int)
    requires (m == 0x1000 && low == 16) || (m == 0x400 && low == 4)
    requires (x % m) / low == b
    ensures (x / low) % 0x100 == b
    ensures x % low == (x % m) % low
  {
    RemainderUnique(x / low, 0x100, x / m, b);
  }

  /** The state of the decoding loop after `i` letters. */
  ghost predicate DecodedTo(text: seq<Byte>, k: nat, j: nat, acc: Word, out: seq<Byte>) {
    && j < 4 && 4 * k + j <= |text|
    && var done := text[..4 * k + j];
       InAlphabet(done)
       && out == WholeBytes(Values(done))
       && Pending(acc, j) == SpareBits(Values(done))
  }

  lemma DecodeNext(text: seq<Byte>, k: nat, j: nat, acc: Word, out: seq<Byte>)
    requires DecodedTo(text, k, j, acc, out)
    requires 4 * k + j < |text| && Reverse(text[4 * k + j]) >= 0
    ensures var acc' := Shifted(acc, Reverse(text[4 * k + j]));
      DecodedTo(text, if j == 3 then k + 1 else k, NextPhase(j), acc', out + Completed(acc', j))
  {
    hide Shifted, Completed, WholeBytes, SpareBits, Pending;
    var i := 4 * k + j;
    var v: Sextet := Reverse(text[i]);
    FeedSextet(Values(text[..i]), k, j, acc, v);
    assert text[..i + 1] == text[..i] + [text[i]];
    assert Values(text[..i + 1]) == Values(text[..i]) + [v];
  }

  /** `b64u_decode`: rejects padding, other characters and non-canonical text. */
  method DecodeText(text: seq<Byte>) returns (r: Option<seq<Byte>>)
    ensures r == Decode(text)
  {
    hide Shifted, WholeBytes, SpareBits, And, Shr32;
    if |text| % 4 == 1 {
      return None;
    }
    var bytes: seq<Byte> := [];
    var acc: Word := 0;
    var bits := 0;
    var i := 0;
    ghost var k, j := 0, 0;
    StartDecoding(text);
    while i < |text|
      invariant i == 4 * k + j && DecodedTo(text, k, j, acc, bytes)
      invariant bits == PendingBits(j)
    {
      var v := Reverse(text[i]);
      if v < 0 {
        return None;
      }
      DecodeNext(text, k, j, acc, bytes);
      acc := Shifted(acc, v);
      bits := bits + 6;
      if bits >= 8 {
        bits := bits - 8;
        bytes := bytes + [Shr32(acc, bits) % 0x100];
      }
      k, j := if j == 3 then k + 1 else k, NextPhase(j);
      i := i + 1;
    }
    assert text[..i] == text;
    SpareTest(acc, j);
    if And(32, acc, Pow2(bits) - 1) != 0 {
      return None;
    }
    r := Some(bytes);
  }

  lemma StartDecoding(text: seq<Byte>)
    ensures DecodedTo(text, 0, 0, 0, [])
  {
    assert text[..0] == [];
  }

  lemma SpareTest(acc: Word, j: nat)
    requires j < 4
    ensures And(32, acc, Pow2(PendingBits(j)) - 1) == Pending(acc, j)
  {
    Pow2Values();
    AndLow(32, acc, PendingBits(j));
  }
}
