/** SHA-256 as `pow/pow.c` computes it, against the definition in FIPS 180-4:
    the padding of section 5.1.1 and the computation of section 6.2. */
module Sha256 {
  import opened Bits

  /** The constants of section 4.2.2, eight to a row. */
  function K256(t: nat): Word
    requires t < 64
  {
    KRow(t / 8)[t % 8]
  }

  function KRow(row: nat): (k: seq<Word>)
    requires row < 8
    ensures |k| == 8
  {
    match row
    case 0 =>
      [0x428a2f98, 0x71374491, 0xb5c0fbcf, 0xe9b5dba5, 0x3956c25b, 0x59f111f1, 0x923f82a4, 0xab1c5ed5]
    case 1 =>
      [0xd807aa98, 0x12835b01, 0x243185be, 0x550c7dc3, 0x72be5d74, 0x80deb1fe, 0x9bdc06a7, 0xc19bf174]
    case 2 =>
      [0xe49b69c1, 0xefbe4786, 0x0fc19dc6, 0x240ca1cc, 0x2de92c6f, 0x4a7484aa, 0x5cb0a9dc, 0x76f988da]
    case 3 =>
      [0x983e5152, 0xa831c66d, 0xb00327c8, 0xbf597fc7, 0xc6e00bf3, 0xd5a79147, 0x06ca6351, 0x14292967]
    case 4 =>
      [0x27b70a85, 0x2e1b2138, 0x4d2c6dfc, 0x53380d13, 0x650a7354, 0x766a0abb, 0x81c2c92e, 0x92722c85]
    case 5 =>
      [0xa2bfe8a1, 0xa81a664b, 0xc24b8b70, 0xc76c51a3, 0xd192e819, 0xd6990624, 0xf40e3585, 0x106aa070]
    case 6 =>
      [0x19a4c116, 0x1e376c08, 0x2748774c, 0x34b0bcb5, 0x391c0cb3, 0x4ed8aa4a, 0x5b9cca4f, 0x682e6ff3]
    case _ =>
      [0x748f82ee, 0x78a5636f, 0x84c87814, 0x8cc70208, 0x90befffa, 0xa4506ceb, 0xbef9a3f7, 0xc67178f2]
  }

  /** The initial hash value, section 5.3.3. */
  function H0(): (h: seq<Word>)
    ensures |h| == 8
  {
    [0x6a09e667, 0xbb67ae85, 0x3c6ef372, 0xa54ff53a, 0x510e527f, 0x9b05688c, 0x1f83d9ab, 0x5be0cd19]
  }

  // ---- the definition ------------------------------------------------------

  function Rotr(x: Word, n: nat): Word
    requires 0 < n < 32
  {
    Or32(Shr32(x, n), Shl32(x, 32 - n))
  }

  function Xor3(x: Word, y: Word, z: Word): Word { Xor32(Xor32(x, y), z) }

  function SmallSigma0(x: Word): Word { Xor3(Rotr(x, 7), Rotr(x, 18), Shr32(x, 3)) }
  function SmallSigma1(x: Word): Word { Xor3(Rotr(x, 17), Rotr(x, 19), Shr32(x, 10)) }
  function BigSigma0(x: Word): Word { Xor3(Rotr(x, 2), Rotr(x, 13), Rotr(x, 22)) }
  function BigSigma1(x: Word): Word { Xor3(Rotr(x, 6), Rotr(x, 11), Rotr(x, 25)) }
  function Ch(x: Word, y: Word, z: Word): Word { Xor32(And32(x, y), And32(Not32(x), z)) }
  function Maj(x: Word, y: Word, z: Word): Word { Xor3(And32(x, y), And32(x, z), And32(y, z)) }

  /** A big-endian word, written with shifts and `|` as the program does. */
  function ReadWord(b0: Byte, b1: Byte, b2: Byte, b3: Byte): Word {
    Or32(Or32(Or32(Shl32(b0, 24), Shl32(b1, 16)), Shl32(b2, 8)), b3)
  }

  function Words(block: seq<Byte>): (r: seq<Word>)
    ensures |r| == |block| / 4
  {
    seq(|block| / 4, i requires 0 <= i < |block| / 4 =>
      ReadWord(block[4 * i], block[4 * i + 1], block[4 * i + 2], block[4 * i + 3]))
  }

  /** The message schedule, section 6.2.2 step 1. */
  function Schedule(m: seq<Word>, t: nat): Word
    requires |m| == 16
  {
    if t < 16 then
      m[t]
    else
      Plus32(Plus32(Plus32(SmallSigma1(Schedule(m, t - 2)), Schedule(m, t - 7)),
                    SmallSigma0(Schedule(m, t - 15))), Schedule(m, t - 16))
  }

  datatype Registers = Registers(a: Word, b: Word, c: Word, d: Word, e: Word, f: Word, g: Word, h: Word)

  /** One round, section 6.2.2 step 3. */
  function Round(r: Registers, k: Word, w: Word): Registers {
    var t1 := Plus32(Plus32(Plus32(Plus32(r.h, BigSigma1(r.e)), Ch(r.e, r.f, r.g)), k), w);
    var t2 := Plus32(BigSigma0(r.a), Maj(r.a, r.b, r.c));
    Registers(Plus32(t1, t2), r.a, r.b, r.c, Plus32(r.d, t1), r.e, r.f, r.g)
  }

  function Rounds(m: seq<Word>, r: Registers, t: nat): Registers
    requires |m| == 16 && t <= 64
  {
    if t == 0 then r else Round(Rounds(m, r, t - 1), K256(t - 1), Schedule(m, t - 1))
  }

  function Load(h: seq<Word>): Registers
    requires |h| == 8
  {
    Registers(h[0], h[1], h[2], h[3], h[4], h[5], h[6], h[7])
  }

  function Unload(r: Registers): (s: seq<Word>)
    ensures |s| == 8
  {
    [r.a, r.b, r.c, r.d, r.e, r.f, r.g, r.h]
  }

  /** The intermediate hash value after one block, section 6.2.2. */
  function Compress(h: seq<Word>, m: seq<Word>): (r: seq<Word>)
    requires |h| == 8 && |m| == 16
    ensures |r| == 8
  {
    var r := Unload(Rounds(m, Load(h), 64));
    seq(8, i requires 0 <= i < 8 => Plus32(h[i], r[i]))
  }

  /** The hash value after the first `n` blocks of a message. */
  function HashBlocks(data: seq<Byte>, n: nat): (r: seq<Word>)
    requires 64 * n <= |data|
    ensures |r| == 8
  {
    if n == 0 then H0()
    else Compress(HashBlocks(data, n - 1), Words(data[64 * (n - 1)..64 * n]))
  }

  function Zeros(n: nat): (r: seq<Byte>)
    ensures |r| == n
    ensures forall i :: 0 <= i < n ==> r[i] == 0
  {
    seq(n, _ => 0)
  }

  /** Byte `j` of a number, counted from the least significant: `v >> 8 * j`
      cut to eight bits. */
  function Octet(v: nat, j: nat): Byte {
    if j == 0 then v % 0x100 else Octet(v / 0x100, j - 1)
  }

  function BigEndian64(v: nat): (r: seq<Byte>)
    ensures |r| == 8
  {
    seq(8, i requires 0 <= i < 8 => Octet(v, 7 - i))
  }

  /** The zero bytes between the 0x80 byte and the length. */
  function PadZeros(len: nat): (k: nat)
    ensures k < 64
    ensures (8 * len + 1 + (8 * k + 7)) % 512 == 448
  {
    (119 - len % 64) % 64
  }

  lemma PaddedLength(len: nat)
    ensures (len + 1 + PadZeros(len) + 8) % 64 == 0
  {
  }

  /** The padded message, section 5.1.1. */
  function Pad(data: seq<Byte>): (r: seq<Byte>)
    requires |data| < 0x2000_0000_0000_0000
    ensures |r| == |data| + 1 + PadZeros(|data|) + 8
    ensures |r| % 64 == 0
  {
    PaddedLength(|data|);
    data + [0x80] + Zeros(PadZeros(|data|)) + BigEndian64(8 * |data|)
  }

  function WordOctets(w: Word): (r: seq<Byte>)
    ensures |r| == 4
  {
    [Octet(w, 3), Octet(w, 2), Octet(w, 1), Octet(w, 0)]
  }

  function Octets(h: seq<Word>): (r: seq<Byte>)
    ensures |r| == 4 * |h|
  {
    if h == [] then [] else Octets(h[..|h| - 1]) + WordOctets(h[|h| - 1])
  }

  /** SHA-256, section 6.2. */
  function Hash(data: seq<Byte>): (r: seq<Byte>)
    requires |data| < 0x2000_0000_0000_0000
    ensures |r| == 32
  {
    Octets(HashBlocks(Pad(data), |Pad(data)| / 64))
  }

  // ---- the program ---------------------------------------------------------

  /** The schedule loops of `sha256_block`. */
  method ExpandSchedule(block: seq<Byte>) returns (W: array<Word>)
    requires |block| == 64
    ensures fresh(W) && W.Length == 64
    ensures Scheduled(W[..], Words(block), 64)
  {
    ghost var m := Words(block);
    W := new Word[64];
    for t := 0 to 16
      invariant W[..t] == m[..t]
    {
      W[t] := ReadWord(block[t * 4], block[t * 4 + 1], block[t * 4 + 2], block[t * 4 + 3]);
      assert m[..t + 1] == m[..t] + [m[t]];
      assert W[..t + 1] == W[..t] + [W[t]];
    }
    ScheduleStart(W[..], m);
    for t := 16 to 64
      invariant Scheduled(W[..], m, t)
    {
      ghost var before := W[..];
      ScheduleStep(before, m, t);
      W[t] := NextWord(W[t - 16], W[t - 15], W[t - 7], W[t - 2]);
      assert W[..] == before[t := W[t]];
    }
  }

  /** The body of the second schedule loop, summed in the program's order. */
  function NextWord(w16: Word, w15: Word, w7: Word, w2: Word): Word {
    var s0 := Xor3(Rotr(w15, 7), Rotr(w15, 18), Shr32(w15, 3));
    var s1 := Xor3(Rotr(w2, 17), Rotr(w2, 19), Shr32(w2, 10));
    Plus32(Plus32(Plus32(w16, s0), w7), s1)
  }

  ghost predicate Scheduled(W: seq<Word>, m: seq<Word>, t: nat) {
    && |m| == 16 && t <= |W|
    && forall i :: 0 <= i < t ==> W[i] == Schedule(m, i)
  }

  lemma ScheduleStart(W: seq<Word>, m: seq<Word>)
    requires |m| == 16 <= |W| && W[..16] == m[..16]
    ensures Scheduled(W, m, 16)
  {
    forall i | 0 <= i < 16
      ensures W[i] == Schedule(m, i)
    {
      assert W[i] == W[..16][i] == m[..16][i];
    }
  }

  lemma ScheduleStep(W: seq<Word>, m: seq<Word>, t: nat)
    requires 16 <= t < |W| && Scheduled(W, m, t)
    ensures Scheduled(W[t := NextWord(W[t - 16], W[t - 15], W[t - 7], W[t - 2])], m, t + 1)
  {
    var s0, s1 := SmallSigma0(W[t - 15]), SmallSigma1(W[t - 2]);
    PlusReordered(W[t - 16], s0, W[t - 7], s1);
    assert Schedule(m, t) == Plus32(Plus32(Plus32(s1, W[t - 7]), s0), W[t - 16]);
  }

  /** The 64 rounds of `sha256_block`. */
  method RunRounds(W: array<Word>, ghost m: seq<Word>, start: Registers) returns (r: Registers)
    requires W.Length == 64 && |m| == 16
    requires Scheduled(W[..], m, 64)
    ensures r == Rounds(m, start, 64)
  {
    var Registers(a, b, c, d, e, f, g, h) := start;
    for t := 0 to 64
      invariant Registers(a, b, c, d, e, f, g, h) == Rounds(m, start, t)
    {
      assert W[t] == W[..][t];
      var S1 := Xor3(Rotr(e, 6), Rotr(e, 11), Rotr(e, 25));
      var choice := Xor32(And32(e, f), And32(Not32(e), g));
      var t1 := Plus32(Plus32(Plus32(Plus32(h, S1), choice), K256(t)), W[t]);
      var S0 := Xor3(Rotr(a, 2), Rotr(a, 13), Rotr(a, 22));
      var majority := Xor3(And32(a, b), And32(a, c), And32(b, c));
      var t2 := Plus32(S0, majority);
      h := g; g := f; f := e; e := Plus32(d, t1);
      d := c; c := b; b := a; a := Plus32(t1, t2);
    }
    r := Registers(a, b, c, d, e, f, g, h);
  }

  /** `sha256_block`. */
  method Sha256Block(state: array<Word>, block: seq<Byte>)
    requires state.Length == 8 && |block| == 64
    modifies state
    ensures state[..] == Compress(old(state[..]), Words(block))
  {
    hide Rounds, Words, Plus32;
    var W := ExpandSchedule(block);
    ghost var before := state[..];
    var start := Registers(state[0], state[1], state[2], state[3], state[4], state[5], state[6], state[7]);
    assert start == Load(before);
    var r := RunRounds(W, Words(block), start);
    var add := [r.a, r.b, r.c, r.d, r.e, r.f, r.g, r.h];
    for i := 0 to 8
      invariant forall j :: 0 <= j < i ==> state[j] == Plus32(before[j], add[j])
      invariant forall j :: i <= j < 8 ==> state[j] == before[j]
    {
      state[i] := Plus32(state[i], add[i]);
    }
  }

  // ---- messages ------------------------------------------------------------

  /** Only the hashed prefix matters. */
  lemma {:induction false} HashBlocksPrefix(a: seq<Byte>, b: seq<Byte>, n: nat)
    requires 64 * n <= |a| && 64 * n <= |b| && a[..64 * n] == b[..64 * n]
    ensures HashBlocks(a, n) == HashBlocks(b, n)
  {
    hide Compress;
    if n != 0 {
      assert a[..64 * (n - 1)] == a[..64 * n][..64 * (n - 1)];
      assert b[..64 * (n - 1)] == b[..64 * n][..64 * (n - 1)];
      HashBlocksPrefix(a, b, n - 1);
      assert a[64 * (n - 1)..64 * n] == a[..64 * n][64 * (n - 1)..];
      assert b[64 * (n - 1)..64 * n] == b[..64 * n][64 * (n - 1)..];
    }
  }

  /** The number of whole blocks in the data. */
  ghost predicate WholeBlocks(data: seq<Byte>, n: nat) {
    64 * n <= |data| < 64 * n + 64
  }

  /** The buffer with the rest of the data, the 0x80 byte and zeros. */
  function TailBlock(data: seq<Byte>, n: nat): (r: seq<Byte>)
    requires WholeBlocks(data, n)
    ensures |r| == 64
  {
    data[64 * n..] + [0x80] + Zeros(63 + 64 * n - |data|)
  }

  /** The last padded block has number `n`, and `head` before the length. */
  ghost predicate LastBlock(data: seq<Byte>, n: nat, head: seq<Byte>)
    requires |data| < 0x2000_0000_0000_0000
  {
    && |Pad(data)| == 64 * (n + 1)
    && head + BigEndian64(8 * |data|) == Pad(data)[64 * n..64 * (n + 1)]
  }

  /** How the padded message ends: in the block that holds the tail of the data
      when that leaves room for the length, otherwise in one block more. */
  lemma PadTail(data: seq<Byte>, n: nat)
    requires |data| < 0x2000_0000_0000_0000 && WholeBlocks(data, n)
    ensures Pad(data)[..64 * n] == data[..64 * n]
    ensures |data| < 64 * n + 56 ==> LastBlock(data, n, TailBlock(data, n)[..56])
    ensures |data| >= 64 * n + 56 ==>
      && LastBlock(data, n + 1, Zeros(56))
      && TailBlock(data, n) == Pad(data)[64 * n..64 * (n + 1)]
  {
    assert |data| % 64 == |data| - 64 * n;
  }

  lemma HashNext(padded: seq<Byte>, n: nat)
    requires 64 * (n + 1) <= |padded|
    ensures HashBlocks(padded, n + 1) == Compress(HashBlocks(padded, n), Words(padded[64 * n..64 * (n + 1)]))
  {
    hide Compress;
  }

  /** `sha256`. */
  method Sha256(data: seq<Byte>) returns (out: array<Byte>)
    requires |data| < 0x2000_0000_0000_0000
    ensures fresh(out) && out[..] == Hash(data)
  {
    hide Compress, Octet;
    var state := new Word[8](i requires 0 <= i < 8 => H0()[i]);
    assert state[..] == H0();
    var i := 0;
    ghost var n := 0;
    while i + 64 <= |data|
      invariant 0 <= i == 64 * n <= |data|
      invariant state[..] == HashBlocks(data, n)
    {
      HashNext(data, n);
      Sha256Block(state, data[i..i + 64]);
      i := i + 64;
      n := n + 1;
    }
    HashTail(state, data, i, n);
    out := WriteDigest(state);
  }

  /** The part of `sha256` after the whole blocks: one padded block or two. */
  method HashTail(state: array<Word>, data: seq<Byte>, i: nat, ghost n: nat)
    requires |data| < 0x2000_0000_0000_0000
    requires state.Length == 8 && i == 64 * n && WholeBlocks(data, n)
    requires state[..] == HashBlocks(data, n)
    modifies state
    ensures state[..] == HashBlocks(Pad(data), |Pad(data)| / 64)
  {
    hide Compress;
    ghost var last := n;
    var block := LoadTail(data, i, n);
    PadTail(data, n);
    HashBlocksPrefix(data, Pad(data), n);
    if |data| - i >= 56 {
      HashNext(Pad(data), n);
      Sha256Block(state, block[..]);
      Clear(block);
      last := n + 1;
    }
    assert LastBlock(data, last, block[..56]);
    HashLast(state, block, data, last);
  }

  method Clear(block: array<Byte>)
    requires block.Length == 64
    modifies block
    ensures block[..56] == Zeros(56)
  {
    forall j | 0 <= j < 64 {
      block[j] := 0;
    }
  }

  /** The last block of `sha256`. */
  method HashLast(state: array<Word>, block: array<Byte>, data: seq<Byte>, ghost last: nat)
    requires |data| < 0x2000_0000_0000_0000
    requires state.Length == 8 && block.Length == 64
    requires LastBlock(data, last, block[..56]) && state[..] == HashBlocks(Pad(data), last)
    modifies state, block
    ensures state[..] == HashBlocks(Pad(data), |Pad(data)| / 64)
  {
    hide Compress;
    WriteLength(block, |data| * 8);
    HashNext(Pad(data), last);
    Sha256Block(state, block[..]);
    assert |Pad(data)| / 64 == last + 1;
  }

  /** Filling the buffer with the rest of the data and the 0x80 byte. */
  method LoadTail(data: seq<Byte>, i: nat, ghost n: nat) returns (block: array<Byte>)
    requires i == 64 * n && WholeBlocks(data, n)
    ensures fresh(block) && block.Length == 64
    ensures block[..] == TailBlock(data, n)
  {
    block := new Byte[64](_ => 0);
    forall j | 0 <= j < |data| - i {
      block[j] := data[i + j];
    }
    block[|data| - i] := 0x80;
  }

  /** The length loop of `sha256`. */
  method WriteLength(block: array<Byte>, bits: nat)
    requires block.Length == 64
    modifies block
    ensures block[..] == old(block[..56]) + BigEndian64(bits)
  {
    ghost var head := block[..56];
    for j := 0 to 8
      invariant block[..56] == head
      invariant block[64 - j..] == BigEndian64(bits)[8 - j..]
    {
      block[63 - j] := Octet(bits, j);
      assert block[63 - j..] == [block[63 - j]] + block[64 - j..];
    }
    assert block[..] == block[..56] + block[56..];
    assert BigEndian64(bits)[0..] == BigEndian64(bits);
  }

  /** The output loop of `sha256`. */
  method WriteDigest(state: array<Word>) returns (out: array<Byte>)
    requires state.Length == 8
    ensures fresh(out) && out[..] == Octets(state[..])
  {
    hide Octet;
    out := new Byte[32];
    for j := 0 to 8
      invariant out[..4 * j] == Octets(state[..j])
    {
      out[j * 4] := Octet(state[j], 3);
      out[j * 4 + 1] := Octet(state[j], 2);
      out[j * 4 + 2] := Octet(state[j], 1);
      out[j * 4 + 3] := Octet(state[j], 0);
      assert out[..4 * (j + 1)] == out[..4 * j] + WordOctets(state[j]);
      assert state[..j + 1][..j] == state[..j];
    }
    assert out[..] == out[..32] && state[..] == state[..8];
  }
}
