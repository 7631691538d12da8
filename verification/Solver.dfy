/** The search of the `solve` command. */
module Solver {
  import opened Bits
  import opened Sha256
  import opened Kernel
  import opened KernelProof
  import opened Dispatch

  const BATCH: nat := 0x200_0000
  const WRAP: nat := 0x1_0000_0000_0000_0000

  /** The `i`-th counter after `base` makes a token of the level. */
  ghost predicate LevelAt(doc: seq<Byte>, level: nat, base: nat, i: nat)
    requires |doc| < DOC_LIMIT
  {
    TokenLevel(doc, BigEndian64((base + i) % WRAP)) >= level
  }

  /** The counters from `base` on, `n` of them, all miss the level. */
  ghost predicate Misses(doc: seq<Byte>, level: nat, base: nat, n: nat)
    requires |doc| < DOC_LIMIT
  {
    forall i: nat :: i < n ==> !LevelAt(doc, level, base, i)
  }

  lemma MissesBatch(doc: seq<Byte>, level: nat, start: nat, n: nat, base: nat)
    requires |doc| < DOC_LIMIT && base == (start + n) % WRAP
    requires Misses(doc, level, start, n)
    requires forall t: Word :: t < BATCH ==> !Reaches(doc, level, base, t)
    ensures Misses(doc, level, start, n + BATCH)
  {
    hide TokenLevel, BigEndian64;
    forall i: nat | n <= i < n + BATCH
      ensures !LevelAt(doc, level, start, i)
    {
      var t: Word := i - n;
      CounterOf(start, n, base, t);
      assert n + t == i;
      assert !Reaches(doc, level, base, t);
    }
  }

  lemma CounterOf(start: nat, n: nat, base: nat, t: Word)
    requires base == (start + n) % WRAP
    ensures Counter(base, t) == (start + (n + t)) % WRAP
  {
    RemainderUnique(start + n + t, WRAP, (start + n) / WRAP + (base + t) / WRAP, (base + t) % WRAP);
  }

  /** `prefix_words_of`. */
  method PrefixWords(doc: seq<Byte>) returns (words: array<Word>)
    requires |doc| < DOC_LIMIT
    ensures fresh(words) && words[..] == Words(Hash(doc))
  {
    hide Hash, ReadWord;
    var inner := Sha256.Sha256(doc);
    ghost var octets := inner[..];
    words := new Word[8];
    for i := 0 to 8
      invariant words[..i] == Words(octets)[..i]
      invariant inner[..] == octets
    {
      assert octets[i * 4] == inner[i * 4] && octets[i * 4 + 3] == inner[i * 4 + 3];
      assert octets[i * 4 + 1] == inner[i * 4 + 1] && octets[i * 4 + 2] == inner[i * 4 + 2];
      words[i] := ReadWord(inner[i * 4], inner[i * 4 + 1], inner[i * 4 + 2], inner[i * 4 + 3]);
      assert words[..i + 1] == words[..i] + [words[i]];
      assert Words(octets)[..i + 1] == Words(octets)[..i] + [Words(octets)[i]];
    }
    assert words[..] == words[..8] && Words(octets)[..8] == Words(octets);
  }

  /** Up to `rounds` turns of the search loop of `solve`.  The first batch with a
      hit ends it; `attempts` counts up to the reported thread. */
  method Search(doc: seq<Byte>, level: nat, start: nat, rounds: nat)
    returns (solved: bool, counter: nat, attempts: nat, ghost misses: nat, ghost w: nat)
    requires |doc| < DOC_LIMIT && 1 <= level <= 64 && start < WRAP
    ensures solved ==>
      && counter < WRAP && TokenLevel(doc, BigEndian64(counter)) >= level
      && misses < rounds && Misses(doc, level, start, misses * BATCH)
      && w < BATCH && counter == (start + (misses * BATCH + w)) % WRAP
      && attempts == (misses * BATCH + w + 1) % WRAP
    ensures !solved ==> Misses(doc, level, start, rounds * BATCH)
  {
    hide TokenLevel, BigEndian64, Hash, Words;
    var prefix := PrefixWords(doc);
    var base := start;
    attempts, counter := 0, 0;
    misses, w := rounds, 0;
    for n := 0 to rounds
      invariant base < WRAP && base == (start + n * BATCH) % WRAP
      invariant attempts == (n * BATCH) % WRAP
      invariant Misses(doc, level, start, n * BATCH)
      invariant prefix[..] == Words(Hash(doc))
    {
      solved, counter := MinerDispatch(prefix[..], doc, level, base, BATCH);
      if solved {
        ghost var t: Word :| t < BATCH && Reaches(doc, level, base, t) && counter == Counter(base, t);
        CounterOf(start, n * BATCH, base, t);
        AttemptsOf(base, t, n * BATCH);
        attempts := (attempts + (counter - base + 1) % WRAP) % WRAP;
        misses, w := n, t;
        return;
      }
      MissesBatch(doc, level, start, n * BATCH, base);
      assert n * BATCH + BATCH == (n + 1) * BATCH;
      attempts := (attempts + BATCH) % WRAP;
      NextBase(start, n * BATCH, base);
      base := (base + BATCH) % WRAP;
    }
    solved := false;
  }

  lemma NextBase(start: nat, n: nat, base: nat)
    requires base == (start + n) % WRAP
    ensures (base + BATCH) % WRAP == (start + (n + BATCH)) % WRAP
    ensures (n % WRAP + BATCH) % WRAP == (n + BATCH) % WRAP
  {
    RemainderUnique(start + n + BATCH, WRAP, (start + n) / WRAP + (base + BATCH) / WRAP, (base + BATCH) % WRAP);
    RemainderUnique(n + BATCH, WRAP, n / WRAP + (n % WRAP + BATCH) / WRAP, (n % WRAP + BATCH) % WRAP);
  }

  lemma AttemptsOf(base: nat, w: Word, before: nat)
    requires base < WRAP && w < BATCH
    ensures (before % WRAP + (Counter(base, w) - base + 1) % WRAP) % WRAP == (before + w + 1) % WRAP
  {
    var wrapped := if base + w >= WRAP then 1 else 0;
    RemainderUnique(base + w, WRAP, wrapped, base + w - WRAP * wrapped);
    RemainderUnique(Counter(base, w) - base + 1, WRAP, -wrapped, w + 1);
    var sum := before % WRAP + (w + 1);
    RemainderUnique(before + w + 1, WRAP, before / WRAP + sum / WRAP, sum % WRAP);
  }
}
