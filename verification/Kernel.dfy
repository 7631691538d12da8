/** The GPU kernel `mine` of pow.c and pow.swift, and the checker it must agree
    with.  The kernel hashes the one padded block of SHA-256(doc) || suffix with
    the suffix kept as two counter words; the checker is `token_level`. */
module Kernel {
  import opened Bits
  import opened Sha256
  import opened TrailingZeros

  const DOC_LIMIT: nat := 0x2000_0000_0000_0000

  /** The level of a token, as the token format defines it. */
  function TokenLevel(doc: seq<Byte>, suffix: seq<Byte>): nat
    requires |doc| < DOC_LIMIT && |suffix| <= 32
  {
    TrailingZeroBits(Hash(Hash(doc) + suffix))
  }

  /** `token_level`. */
  method CheckToken(doc: seq<Byte>, suffix: seq<Byte>) returns (level: nat)
    requires |doc| < DOC_LIMIT && |suffix| <= 32
    ensures level == TokenLevel(doc, suffix)
    ensures forall n :: 0 <= n <= 256 ==>
      (level >= n <==> DigestValue(Hash(Hash(doc) + suffix)) % Pow2(n) == 0)
  {
    hide Hash, TrailingZeroBits, DigestValue, Pow2;
    var message := new Byte[64](_ => 0);
    var inner := Sha256.Sha256(doc);
    forall i | 0 <= i < 32 {
      message[i] := inner[i];
    }
    forall i | 0 <= i < |suffix| {
      message[32 + i] := suffix[i];
    }
    assert message[..32 + |suffix|] == Hash(doc) + suffix;
    var check := Sha256.Sha256(message[..32 + |suffix|]);
    level := CountTrailingZeros(check[..]);
    forall n | 0 <= n <= 256
      ensures level >= n <==> DigestValue(check[..]) % Pow2(n) == 0
    {
      LevelIsDivisibility(check[..], n);
    }
  }

  // ---- the kernel ----------------------------------------------------------

  /** The kernel's parameters: SHA-256(doc) as words, the level, and the first
      counter in two halves. */
  datatype Params = Params(h: seq<Word>, level: nat, nonceHi: Word, nonceLo: Word) {
    ghost predicate Valid() {
      |h| == 8 && 1 <= level <= 64
    }
  }

  function Lo(p: Params, tid: Word): Word {
    Plus32(p.nonceLo, tid)
  }

  /** The carry into the high half shows as wrap-around of the low half. */
  function Hi(p: Params, tid: Word): Word {
    Plus32(p.nonceHi, if Lo(p, tid) < p.nonceLo then 1 else 0)
  }

  function MinerBlock(h: seq<Word>, hi: Word, lo: Word): (m: seq<Word>)
    requires |h| == 8
    ensures |m| == 16
  {
    h + [hi, lo, 0x8000_0000, 0, 0, 0, 0, 320]
  }

  function Mask(level: nat): nat {
    if level >= 64 then 0xffff_ffff_ffff_ffff else Pow2(level) - 1
  }

  /** The last two words of the digest, as the kernel combines them. */
  function Low64(digest: seq<Word>): int
    requires |digest| == 8
  {
    Or(64, digest[6] * Pow2(32), digest[7])
  }

  /** Whether a thread's hash passes the mask. */
  ghost predicate Accepts(p: Params, tid: Word)
    requires p.Valid()
  {
    And(64, Low64(Compress(H0(), MinerBlock(p.h, Hi(p, tid), Lo(p, tid)))), Mask(p.level)) == 0
  }

  lemma BlockWords(w: seq<Word>, h: seq<Word>, hi: Word, lo: Word)
    requires |w| == 16 && |h| == 8 && w[..8] == h && w[8] == hi && w[9] == lo && w[10] == 0x8000_0000
    requires w[11] == w[12] == w[13] == w[14] == 0 && w[15] == 320
    ensures w == MinerBlock(h, hi, lo)
  {
    assert forall i :: 0 <= i < 8 ==> w[i] == w[..8][i];
  }

  /** The message schedule of a thread's block. */
  method MinerSchedule(p: Params, hi: Word, lo: Word) returns (W: array<Word>)
    requires p.Valid()
    ensures W.Length == 64 && Scheduled(W[..], MinerBlock(p.h, hi, lo), 64)
  {
    hide Scheduled, NextWord, MinerBlock;
    ghost var m := MinerBlock(p.h, hi, lo);
    W := new Word[64](_ => 0);
    for i := 0 to 8
      invariant W[..i] == p.h[..i]
    {
      W[i] := p.h[i];
      assert W[..i + 1] == W[..i] + [W[i]];
    }
    W[8] := hi;
    W[9] := lo;
    W[10] := 0x8000_0000;
    W[11], W[12], W[13], W[14] := 0, 0, 0, 0;
    W[15] := 320;
    BlockWords(W[..16], p.h, hi, lo);
    assert W[..][..16] == W[..16] && m[..16] == m;
    ScheduleStart(W[..], m);
    for t := 16 to 64
      invariant Scheduled(W[..], m, t)
    {
      ghost var before := W[..];
      ScheduleStep(before, m, t);
      W[t] := NextWord(W[t - 16], W[t - 15], W[t - 7], W[t - 2]);
      assert W[..] == before[t := W[t]];
    }
  }

  /** One thread of `mine`, up to the atomic operation. */
  method MineThread(p: Params, tid: Word) returns (accept: bool, hi: Word, lo: Word)
    requires p.Valid()
    ensures accept <==> Accepts(p, tid)
    ensures hi == Hi(p, tid) && lo == Lo(p, tid)
  {
    hide Scheduled, Compress, Rounds, MinerBlock, And, Or;
    lo := Plus32(p.nonceLo, tid);
    hi := Plus32(p.nonceHi, if lo < p.nonceLo then 1 else 0);
    ghost var m := MinerBlock(p.h, hi, lo);
    var W := MinerSchedule(p, hi, lo);
    var start := Load(H0());
    var r := RunRounds(W, m, start);
    var low := Or(64, Plus32(0x1f83d9ab, r.g) * Pow2(32), Plus32(0x5be0cd19, r.h));
    LastWords(m);
    var mask := if p.level >= 64 then 0xffff_ffff_ffff_ffff else Pow2(p.level) - 1;
    accept := And(64, low, mask) == 0;
  }

  lemma LastWords(m: seq<Word>)
    requires |m| == 16
    ensures Compress(H0(), m)[6] == Plus32(0x1f83d9ab, Rounds(m, Load(H0()), 64).g)
    ensures Compress(H0(), m)[7] == Plus32(0x5be0cd19, Rounds(m, Load(H0()), 64).h)
  {
  }
}
