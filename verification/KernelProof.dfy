/** The kernel refines the checker: a thread accepts exactly when the token made
    from its counter reaches the level. */
module KernelProof {
  import opened Bits
  import opened Sha256
  import opened TrailingZeros
  import opened Kernel

  // ---- words and bytes -----------------------------------------------------

  lemma {:induction false} ShiftFits(x: Word, n: nat)
    requires x * Pow2(n) < 0x1_0000_0000
    ensures Shl32(x, n) == x * Pow2(n)
    decreases n
  {
    if n != 0 {
      var m := Pow2(n - 1);
      DoubleFits(x, m);
      ShiftFits(2 * x, n - 1);
    }
  }

  lemma DoubleFits(x: nat, m: nat)
    requires m >= 1 && x * (2 * m) < 0x1_0000_0000
    ensures (2 * x) * m == x * (2 * m)
    ensures 2 * x < 0x1_0000_0000
  {
    assert (2 * x) * (m - 1) >= 0;
  }

  lemma ReadWordValue(b0: Byte, b1: Byte, b2: Byte, b3: Byte)
    ensures ReadWord(b0, b1, b2, b3) == 0x100_0000 * b0 + 0x1_0000 * b1 + 0x100 * b2 + b3
  {
    hide Or, Shl32;
    Pow2Values();
    ShiftFits(b0, 24);
    ShiftFits(b1, 16);
    ShiftFits(b2, 8);
    OrAdds(32, 24, b0, b1 * 0x1_0000);
    OrAdds(32, 16, b0 * 0x100 + b1, b2 * 0x100);
    OrAdds(32, 8, b0 * 0x1_0000 + b1 * 0x100 + b2, b3);
  }

  /** The four low bytes of a number, written out. */
  lemma LowOctets(v: nat)
    ensures Octet(v, 0) == v % 0x100
    ensures Octet(v, 1) == (v / 0x100) % 0x100
    ensures Octet(v, 2) == (v / 0x1_0000) % 0x100
    ensures Octet(v, 3) == (v / 0x100_0000) % 0x100
  {
    assert Octet(v, 2) == Octet(v / 0x100, 1);
    assert Octet(v, 3) == Octet(v / 0x100, 2) == Octet(v / 0x100 / 0x100, 1);
    assert v / 0x100 / 0x100 == v / 0x1_0000;
    assert v / 0x1_0000 / 0x100 == v / 0x100_0000;
  }

  lemma OctetsOfWord(w: Word)
    ensures 0x100_0000 * Octet(w, 3) + 0x1_0000 * Octet(w, 2) + 0x100 * Octet(w, 1) + Octet(w, 0) == w
  {
    LowOctets(w);
  }

  /** The low four bytes of a 64-bit counter are those of its low half, the high
      four those of its high half. */
  lemma OctetHalves(c: nat, j: nat)
    requires j < 4
    ensures Octet(c, j) == Octet(c % 0x1_0000_0000, j)
    ensures Octet(c, j + 4) == Octet(c / 0x1_0000_0000, j)
  {
    OctetHigh(c, j);
    LowOctets(c);
    LowOctets(c % 0x1_0000_0000);
    LowHalf(c);
  }

  lemma OctetHigh(c: nat, j: nat)
    ensures Octet(c, j + 4) == Octet(c / 0x1_0000_0000, j)
  {
    var q := c / 0x100 / 0x100;
    assert Octet(c, j + 4) == Octet(c / 0x100, j + 3) == Octet(q, j + 2);
    assert Octet(q, j + 2) == Octet(q / 0x100, j + 1) == Octet(q / 0x100 / 0x100, j);
    assert q / 0x100 / 0x100 == c / 0x1_0000_0000;
  }

  lemma LowHalf(c: nat)
    ensures var low := c % 0x1_0000_0000;
      && low % 0x100 == c % 0x100
      && (low / 0x100) % 0x100 == (c / 0x100) % 0x100
      && (low / 0x1_0000) % 0x100 == (c / 0x1_0000) % 0x100
      && (low / 0x100_0000) % 0x100 == (c / 0x100_0000) % 0x100
  {
    var low, q := c % 0x1_0000_0000, c / 0x1_0000_0000;
    assert c == low + q * 0x1_0000_0000;
    assert c / 0x100 == low / 0x100 + 0x100 * (q * 0x1_0000);
    assert c / 0x1_0000 == low / 0x1_0000 + 0x100 * (q * 0x100);
    assert c / 0x100_0000 == low / 0x100_0000 + 0x100 * q;
    SameLowByte(low / 0x100, q * 0x1_0000);
    SameLowByte(low / 0x1_0000, q * 0x100);
    SameLowByte(low / 0x100_0000, q);
    SameLowByte(low, q * 0x100_0000);
  }

  lemma SameLowByte(x: nat, k: nat)
    ensures (x + 0x100 * k) % 0x100 == x % 0x100
  {
  }

  // ---- the digest as a number ----------------------------------------------

  lemma DigestAppend(d: seq<Byte>, b: Byte)
    ensures DigestValue(d + [b]) == 0x100 * DigestValue(d) + b
  {
    assert (d + [b])[..|d|] == d;
  }

  lemma DigestAppendWord(d: seq<Byte>, w: Word)
    ensures DigestValue(d + WordOctets(w)) == 0x1_0000_0000 * DigestValue(d) + w
  {
    var b := WordOctets(w);
    DigestAppend(d, b[0]);
    DigestAppend(d + [b[0]], b[1]);
    DigestAppend(d + [b[0]] + [b[1]], b[2]);
    DigestAppend(d + [b[0]] + [b[1]] + [b[2]], b[3]);
    assert d + b == d + [b[0]] + [b[1]] + [b[2]] + [b[3]];
    OctetsOfWord(w);
  }

  function Join(hi: int, lo: int): int {
    0x1_0000_0000 * hi + lo
  }

  lemma DigestEnd(h: seq<Word>)
    requires |h| == 8
    ensures DigestValue(Octets(h))
         == 0x1_0000_0000_0000_0000 * DigestValue(Octets(h[..6])) + Join(h[6], h[7])
  {
    assert h[..7][..6] == h[..6];
    DigestAppendWord(Octets(h[..6]), h[6]);
    DigestAppendWord(Octets(h[..7]), h[7]);
  }

  /** Only the low `k` bits of a number matter for its divisibility by 2^n. */
  lemma {:induction false} LowBitsDecide(x: nat, low: nat, k: nat, n: nat)
    requires n <= k
    ensures (x * Pow2(k) + low) % Pow2(n) == low % Pow2(n)
  {
    if n != 0 {
      var v := x * Pow2(k) + low;
      var m := Pow2(n - 1);
      assert v == 2 * (x * Pow2(k - 1)) + low;
      HalfRemainder(v, m);
      HalfRemainder(low, m);
      assert v / 2 == x * Pow2(k - 1) + low / 2;
      LowBitsDecide(x, low / 2, k - 1, n - 1);
    }
  }

  /** The mask test on the last two words is the level test on the digest. */
  lemma MaskTest(h: seq<Word>, level: nat)
    requires |h| == 8 && 1 <= level <= 64
    ensures And(64, Low64(h), Mask(level)) == 0 <==> TrailingZeroBits(Octets(h)) >= level
  {
    hide And, Or, DigestValue, TrailingZeroBits, Octets, Pow2;
    Pow2Values();
    var low := Join(h[6], h[7]);
    OrAdds(64, 32, h[6], h[7]);
    AndLow(64, low, level);
    assert Mask(level) == Pow2(level) - 1;
    DigestEnd(h);
    LowBitsDecide(DigestValue(Octets(h[..6])), low, 64, level);
    LevelIsDivisibility(Octets(h), level);
  }

  // ---- the block -----------------------------------------------------------

  /** The padded 40-byte message is the kernel's block. */
  lemma MinerBlockIsPadded(inner: seq<Byte>, c: nat)
    requires |inner| == 32 && c < 0x1_0000_0000_0000_0000
    ensures var padded := Pad(inner + BigEndian64(c));
      && |padded| == 64
      && Words(padded) == MinerBlock(Words(inner), c / 0x1_0000_0000, c % 0x1_0000_0000)
  {
    hide ReadWord, Octet;
    var message := inner + BigEndian64(c);
    var padded := Pad(message);
    assert PadZeros(40) == 15;
    var w, m := Words(padded), MinerBlock(Words(inner), c / 0x1_0000_0000, c % 0x1_0000_0000);
    CounterWords(c);
    CounterWords(320);
    ReadWordValue(0x80, 0, 0, 0);
    ReadWordValue(0, 0, 0, 0);
    assert padded[40] == 0x80;
    assert forall i :: 41 <= i < 56 ==> padded[i] == 0;
    forall i | 0 <= i < 8
      ensures w[i] == Words(inner)[i]
    {
      assert forall k :: 0 <= k < 32 ==> padded[k] == inner[k];
    }
    assert padded[32..40] == BigEndian64(c);
    assert padded[56..64] == BigEndian64(320);
    assert w[8] == ReadWord(padded[32], padded[33], padded[34], padded[35]);
    assert w[9] == ReadWord(padded[36], padded[37], padded[38], padded[39]);
    assert w == m;
  }

  lemma CounterWords(c: nat)
    requires c < 0x1_0000_0000_0000_0000
    ensures var b := BigEndian64(c);
      && ReadWord(b[0], b[1], b[2], b[3]) == c / 0x1_0000_0000
      && ReadWord(b[4], b[5], b[6], b[7]) == c % 0x1_0000_0000
  {
    hide ReadWord;
    var b, hi, lo := BigEndian64(c), c / 0x1_0000_0000, c % 0x1_0000_0000;
    OctetHalves(c, 0);
    OctetHalves(c, 1);
    OctetHalves(c, 2);
    OctetHalves(c, 3);
    ReadWordValue(b[0], b[1], b[2], b[3]);
    ReadWordValue(b[4], b[5], b[6], b[7]);
    OctetsOfWord(hi);
    OctetsOfWord(lo);
  }

  // ---- the refinement ------------------------------------------------------

  /** The counter of thread `tid`: base + tid modulo 2^64. */
  function Counter(base: nat, tid: Word): nat {
    (base + tid) % 0x1_0000_0000_0000_0000
  }

  /** The parameters of a dispatch for a document. */
  function ParamsFor(doc: seq<Byte>, level: nat, base: nat): (p: Params)
    requires |doc| < DOC_LIMIT && 1 <= level <= 64 && base < 0x1_0000_0000_0000_0000
    ensures p.Valid()
  {
    Params(Words(Hash(doc)), level, base / 0x1_0000_0000, base % 0x1_0000_0000)
  }

  lemma CounterHalves(p: Params, base: nat, tid: Word)
    requires base < 0x1_0000_0000_0000_0000
    requires p.nonceHi == base / 0x1_0000_0000 && p.nonceLo == base % 0x1_0000_0000
    ensures Hi(p, tid) == Counter(base, tid) / 0x1_0000_0000
    ensures Lo(p, tid) == Counter(base, tid) % 0x1_0000_0000
  {
    var hi: int, lo: int := p.nonceHi, p.nonceLo;
    assert base == Join(hi, lo);
    var carry := if lo + tid >= 0x1_0000_0000 then 1 else 0;
    assert Lo(p, tid) == lo + tid - 0x1_0000_0000 * carry && (Lo(p, tid) < p.nonceLo <==> carry == 1);
    assert Hi(p, tid) == if hi + carry == 0x1_0000_0000 then 0 else hi + carry;
    assert Counter(base, tid) == Join(Hi(p, tid), Lo(p, tid));
    JoinParts(Hi(p, tid), Lo(p, tid));
  }

  lemma JoinParts(hi: int, lo: int)
    requires 0 <= lo < 0x1_0000_0000
    ensures Join(hi, lo) / 0x1_0000_0000 == hi && Join(hi, lo) % 0x1_0000_0000 == lo
  {
  }

  /** For every document, base, thread and level, the kernel accepts the thread
      exactly when its token reaches the level. */
  lemma KernelRefinesChecker(doc: seq<Byte>, level: nat, base: nat, tid: Word)
    requires |doc| < DOC_LIMIT && 1 <= level <= 64 && base < 0x1_0000_0000_0000_0000
    ensures Accepts(ParamsFor(doc, level, base), tid)
       <==> TokenLevel(doc, BigEndian64(Counter(base, tid))) >= level
  {
    hide Compress, Words, Octets, Mask, Low64, TrailingZeroBits, Octet;
    var p, c := ParamsFor(doc, level, base), Counter(base, tid);
    CounterHalves(p, base, tid);
    MinerBlockIsPadded(Hash(doc), c);
    var padded := Pad(Hash(doc) + BigEndian64(c));
    var digest := Compress(H0(), MinerBlock(p.h, Hi(p, tid), Lo(p, tid)));
    assert padded[0..64] == padded;
    assert HashBlocks(padded, 0) == H0();
    assert HashBlocks(padded, 1) == digest;
    MaskTest(digest, level);
  }
}
