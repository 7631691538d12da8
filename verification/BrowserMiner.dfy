/** The miner of pow.js.  Its words are signed 32-bit integers; here they are their
    bit patterns, which is all that its operators look at. */
module BrowserMiner {
  import opened Bits
  import opened Sha256
  import opened TrailingZeros
  import opened Kernel
  import opened KernelProof
  import opened Solver

  // ---- the masks -----------------------------------------------------------

  /** `1 << n`: the sign bit for n = 31, and shifts count modulo 32. */
  function OneShifted(n: nat): int {
    if n % 32 == 31 then -0x8000_0000 else Pow2(n % 32)
  }

  function MaskLo(level: nat): int { if level >= 32 then -1 else OneShifted(level) - 1 }

  function MaskHi(level: nat): int {
    if level <= 32 then 0 else if level >= 64 then -1 else OneShifted(level - 32) - 1
  }

  /** The bits that a bitwise operator sees of a number: `(1 << 31) - 1` is below the
      32-bit range, and wraps to 31 ones. */
  function ToUint32(x: int): Word { x % 0x1_0000_0000 }

  /** `n` ones, in spite of the sign. */
  lemma OnesWrap(n: nat)
    requires n < 32
    ensures ToUint32(OneShifted(n) - 1) == Pow2(n) - 1
  {
    hide Pow2;
    Pow2Values();
    Pow2Grows(n, 31);
    var ones: int := Pow2(n) - 1;
    assert OneShifted(n) - 1 == ones || OneShifted(n) - 1 == ones - 0x1_0000_0000;
    Wrapped(OneShifted(n) - 1, ones);
  }

  lemma Wrapped(x: int, ones: int)
    requires 0 <= ones < 0x1_0000_0000 && (x == ones || x == ones - 0x1_0000_0000)
    ensures ToUint32(x) == ones
  {
  }

  predicate Passes(d6: Word, d7: Word, level: nat) {
    && And32(d7, ToUint32(MaskLo(level))) == 0
    && (MaskHi(level) == 0 || And32(d6, ToUint32(MaskHi(level))) == 0)
  }

  /** Two 32-bit remainders test one 64-bit number. */
  lemma SplitLevel(hi: nat, lo: nat, level: nat)
    requires lo < 0x1_0000_0000 && level <= 64
    ensures level <= 32 ==> Join(hi, lo) % Pow2(level) == lo % Pow2(level)
    ensures level > 32 ==> (Join(hi, lo) % Pow2(level) == 0 <==> lo == 0 && hi % Pow2(level - 32) == 0)
  {
    hide Pow2;
    Pow2Values();
    if level <= 32 {
      LowBitsDecide(hi, lo, 32, level);
    } else {
      var m := Pow2(level - 32);
      Pow2Sum(32, level - 32);
      var q, r := hi / m, hi % m;
      JoinOver(hi, lo, m, q, r);
      assert Pow2(level) == 0x1_0000_0000 * m;
      RemainderUnique(Join(hi, lo), 0x1_0000_0000 * m, q, 0x1_0000_0000 * r + lo);
    }
  }

  lemma JoinOver(hi: int, lo: int, m: int, q: int, r: int)
    requires hi == m * q + r && 0 <= r < m && 0 <= lo < 0x1_0000_0000
    ensures Join(hi, lo) == (0x1_0000_0000 * m) * q + (0x1_0000_0000 * r + lo)
    ensures 0 <= 0x1_0000_0000 * r + lo < 0x1_0000_0000 * m
  {
    assert (0x1_0000_0000 * m) * q == 0x1_0000_0000 * (m * q);
  }

  lemma LowOnes(x: Word, n: nat)
    requires n < 32
    ensures And32(x, ToUint32(OneShifted(n) - 1)) == x % Pow2(n)
    ensures And32(x, 0xffff_ffff) == x
  {
    hide And;
    Pow2Values();
    OnesWrap(n);
    AndLow(32, x, n);
    AndLow(32, x, 32);
  }

  /** The level of a digest, in its last two words. */
  ghost predicate Reached(d6: Word, d7: Word, level: nat)
    requires level <= 64
  {
    if level <= 32 then d7 % Pow2(level) == 0 else d7 == 0 && d6 % Pow2(level - 32) == 0
  }

  lemma ReachedIsLevel(h: seq<Word>, level: nat)
    requires |h| == 8 && 1 <= level <= 64
    ensures Reached(h[6], h[7], level) <==> TrailingZeroBits(Octets(h)) >= level
  {
    hide Octets, TrailingZeroBits, DigestValue, Pow2;
    Pow2Values();
    SplitLevel(h[6], h[7], level);
    DigestEnd(h);
    LowBitsDecide(DigestValue(Octets(h[..6])), Join(h[6], h[7]), 64, level);
    LevelIsDivisibility(Octets(h), level);
  }

  lemma LowMask(d7: Word, level: nat)
    requires 1 <= level <= 64
    ensures And32(d7, ToUint32(MaskLo(level))) == if level < 32 then d7 % Pow2(level) else d7
  {
    hide And32, Pow2, OneShifted;
    LowOnes(d7, level % 32);
  }

  lemma HighMask(d6: Word, level: nat)
    requires 1 <= level <= 64
    ensures level <= 32 ==> MaskHi(level) == 0
    ensures level > 32 ==> MaskHi(level) != 0
    ensures level > 32 ==> And32(d6, ToUint32(MaskHi(level))) == if level < 64 then d6 % Pow2(level - 32) else d6
  {
    hide And32, Pow2, OneShifted;
    Pow2Values();
    if 32 < level < 64 {
      LowOnes(d6, level - 32);
      OnesWrap(level - 32);
      Pow2Grows(1, level - 32);
    } else {
      LowOnes(d6, 0);
    }
  }

  /** The two masked words pass exactly when the digest reaches the level. */
  lemma PassesIsLevel(h: seq<Word>, level: nat)
    requires |h| == 8 && 1 <= level <= 64
    ensures Passes(h[6], h[7], level) <==> TrailingZeroBits(Octets(h)) >= level
  {
    hide And32, Octets, TrailingZeroBits, MaskLo, MaskHi, ToUint32, Pow2;
    Pow2Values();
    ReachedIsLevel(h, level);
    LowMask(h[7], level);
    HighMask(h[6], level);
  }

  // ---- the loop ------------------------------------------------------------

  /** The words that stay in `W` from one hash to the next. */
  ghost predicate Prepared(W: seq<Word>, h: seq<Word>) {
    && |W| == 64 && |h| == 8 && W[..8] == h
    && W[10] == 0x8000_0000 && W[11] == W[12] == W[13] == W[14] == 0 && W[15] == 320
  }

  /** The hash in the loop body: the last two words of the digest. */
  method HashCounter(W: array<Word>, ghost h: seq<Word>, hi: Word, lo: Word) returns (d6: Word, d7: Word)
    requires Prepared(W[..], h)
    modifies W
    ensures Prepared(W[..], h)
    ensures d6 == Compress(H0(), MinerBlock(h, hi, lo))[6] && d7 == Compress(H0(), MinerBlock(h, hi, lo))[7]
  {
    hide Compress, NextWord, Schedule, Rounds;
    ghost var m := MinerBlock(h, hi, lo);
    W[8] := hi;
    W[9] := lo;
    FirstWords(W[..], h, hi, lo);
    ScheduleStart(W[..], m);
    for t := 16 to 64
      invariant Scheduled(W[..], m, t) && Prepared(W[..], h)
    {
      ghost var before := W[..];
      ScheduleStep(before, m, t);
      W[t] := NextWord(W[t - 16], W[t - 15], W[t - 7], W[t - 2]);
      assert W[..] == before[t := W[t]];
      assert W[..8] == before[..8];
    }
    var r := RunRounds(W, m, Load(H0()));
    LastWords(m);
    d7 := Plus32(0x5be0cd19, r.h);
    d6 := Plus32(0x1f83d9ab, r.g);
  }

  lemma FirstWords(W: seq<Word>, h: seq<Word>, hi: Word, lo: Word)
    requires |W| == 64 && |h| == 8 && W[..8] == h && W[8] == hi && W[9] == lo
    requires W[10] == 0x8000_0000 && W[11] == W[12] == W[13] == W[14] == 0 && W[15] == 320
    ensures W[..16] == MinerBlock(h, hi, lo)[..16] && Prepared(W, h)
  {
    forall i | 0 <= i < 16 ensures W[..16][i] == MinerBlock(h, hi, lo)[i] {
      if i < 8 { assert W[..8][i] == h[i]; }
    }
  }

  /** The pair `hi:lo` as one counter. */
  lemma PairPasses(doc: seq<Byte>, level: nat, start: nat, i: nat, hi: Word, lo: Word)
    requires |doc| < DOC_LIMIT && 1 <= level <= 64 && start < WRAP && Join(hi, lo) == (start + i) % WRAP
    ensures var d := Compress(H0(), MinerBlock(Words(Hash(doc)), hi, lo));
      Passes(d[6], d[7], level) <==> LevelAt(doc, level, start, i)
  {
    hide Compress, Words, Octets, TrailingZeroBits, Octet, Passes, Hash;
    var c: nat := Join(hi, lo);
    assert c / 0x1_0000_0000 == hi && c % 0x1_0000_0000 == lo;
    CounterDigest(doc, c);
    PassesIsLevel(Compress(H0(), MinerBlock(Words(Hash(doc)), hi, lo)), level);
  }

  /** The digest of a token with a 64-bit counter, from the miner's one block. */
  lemma CounterDigest(doc: seq<Byte>, c: nat)
    requires |doc| < DOC_LIMIT && c < WRAP
    ensures TokenLevel(doc, BigEndian64(c)) ==
            TrailingZeroBits(Octets(Compress(H0(), MinerBlock(Words(Hash(doc)), c / 0x1_0000_0000, c % 0x1_0000_0000))))
  {
    hide Compress, Words, Octets, TrailingZeroBits, Octet;
    MinerBlockIsPadded(Hash(doc), c);
    var padded := Pad(Hash(doc) + BigEndian64(c));
    assert padded[0..64] == padded;
    assert HashBlocks(padded, 0) == H0();
    assert HashBlocks(padded, 1) == Compress(H0(), Words(padded));
  }

  lemma NextPair(start: nat, n: nat, hi: Word, lo: Word)
    requires Join(hi, lo) == (start + n) % WRAP
    ensures Join(if Plus32(lo, 1) == 0 then Plus32(hi, 1) else hi, Plus32(lo, 1)) == (start + (n + 1)) % WRAP
  {
    var a := start + n;
    var next := if a % WRAP == WRAP - 1 then 0 else a % WRAP + 1;
    RemainderUnique(a + 1, WRAP, a / WRAP + (if a % WRAP == WRAP - 1 then 1 else 0), next);
  }

  /** One chunk of the search: it reports the first counter from `start + n` on that
      reaches the level, or moves `hi:lo` past the chunk. */
  method MineChunk(W: array<Word>, doc: seq<Byte>, level: nat, ghost start: nat, ghost n: nat, chunk: nat, startHi: Word, startLo: Word)
    returns (found: bool, count: nat, hi: Word, lo: Word)
    requires |doc| < DOC_LIMIT && 1 <= level <= 64 && start < WRAP
    requires Prepared(W[..], Words(Hash(doc))) && Join(startHi, startLo) == (start + n) % WRAP
    modifies W
    ensures Prepared(W[..], Words(Hash(doc))) && count <= chunk
    ensures found ==> count >= 1 && Join(hi, lo) == (start + (n + count - 1)) % WRAP && LevelAt(doc, level, start, n + count - 1)
    ensures found ==> forall i: nat :: n <= i < n + count - 1 ==> !LevelAt(doc, level, start, i)
    ensures !found ==> count == chunk && Join(hi, lo) == (start + (n + chunk)) % WRAP
    ensures !found ==> forall i: nat :: n <= i < n + chunk ==> !LevelAt(doc, level, start, i)
  {
    hide Compress, Words, Hash, LevelAt, Passes, Prepared;
    hi, lo := startHi, startLo;
    for i := 0 to chunk
      invariant Prepared(W[..], Words(Hash(doc)))
      invariant Join(hi, lo) == (start + (n + i)) % WRAP
      invariant forall k: nat :: n <= k < n + i ==> !LevelAt(doc, level, start, k)
    {
      var d6, d7 := HashCounter(W, Words(Hash(doc)), hi, lo);
      PairPasses(doc, level, start, n + i, hi, lo);
      if Passes(d6, d7, level) { return true, i + 1, hi, lo; }
      NextPair(start, n + i, hi, lo);
      lo := Plus32(lo, 1);
      if lo == 0 { hi := Plus32(hi, 1); }
    }
    return false, chunk, hi, lo;
  }

  /** The buffer as `mine` first fills it. */
  method Prepare(prefixWords: seq<Word>) returns (W: array<Word>)
    requires |prefixWords| == 8
    ensures fresh(W) && Prepared(W[..], prefixWords)
  {
    W := new Word[64](_ => 0);
    for i := 0 to 8
      invariant W[..i] == prefixWords[..i] && forall k :: 8 <= k < 64 ==> W[k] == 0
    {
      W[i] := prefixWords[i];
      assert W[..i + 1] == W[..i] + [W[i]];
    }
    W[10] := 0x8000_0000;
    W[15] := 320;
    assert prefixWords[..8] == prefixWords && W[..][..8] == W[..8];
  }

  /** The miner, for any sizes that its chunks take: the token it reports is the first
      from its start on that reaches the level. */
  method Mine(prefixWords: seq<Word>, doc: seq<Byte>, level: nat, startHi: Word, startLo: Word, chunks: seq<nat>)
    returns (found: bool, hi: Word, lo: Word, ghost tried: nat)
    requires |doc| < DOC_LIMIT && 1 <= level <= 64 && prefixWords == Words(Hash(doc))
    ensures found ==> TokenLevel(doc, BigEndian64(Join(hi, lo))) >= level
    ensures found ==> Join(hi, lo) == (Join(startHi, startLo) + tried) % WRAP
    ensures Misses(doc, level, Join(startHi, startLo), tried)
    ensures !found ==> tried == Sum(chunks)
  {
    hide Words, Hash, TokenLevel, BigEndian64, Prepared;
    ghost var start: nat := Join(startHi, startLo);
    var W := Prepare(prefixWords);
    hi, lo, found, tried := startHi, startLo, false, 0;
    for c := 0 to |chunks|
      invariant !found && Prepared(W[..], Words(Hash(doc)))
      invariant tried == Sum(chunks[..c]) && Join(hi, lo) == (start + tried) % WRAP
      invariant Misses(doc, level, start, tried)
    {
      var count;
      found, count, hi, lo := MineChunk(W, doc, level, start, tried, chunks[c], hi, lo);
      if found {
        tried := tried + count - 1;
        return;
      }
      tried := tried + chunks[c];
      assert chunks[..c + 1][..c] == chunks[..c];
    }
    assert chunks[..|chunks|] == chunks;
  }

  function Sum(s: seq<nat>): nat { if s == [] then 0 else Sum(s[..|s| - 1]) + s[|s| - 1] }
}
