/** The rows of one inbox, the order that `ORDER BY created_at, id` puts them in,
    and what one of them costs in a response. */
module InboxRows {
  import opened Bits
  import opened StringOrder
  import opened Cursors
  import Base64Url
  import MessageIds

  /** Microseconds. */
  type Time = nat
  type Id = string

  datatype Row = Row(created: Time, id: Id, sealed: seq<Byte>)

  predicate Earlier(a: Row, b: Row) {
    a.created < b.created || (a.created == b.created && Below(a.id, b.id))
  }

  lemma EarlierTransitive(a: Row, b: Row, c: Row)
    requires Earlier(a, b) && Earlier(b, c)
    ensures Earlier(a, c)
  {
    if a.created == c.created { BelowTransitive(a.id, b.id, c.id); }
  }

  lemma EarlierIrreflexive(a: Row, b: Row)
    requires Earlier(a, b)
    ensures !Earlier(b, a) && (a.created, a.id) != (b.created, b.id)
  {
    BelowIrreflexive(a.id);
    if Earlier(b, a) && a.created == b.created { BelowTransitive(a.id, b.id, a.id); }
  }

  lemma EarlierTotal(a: Row, b: Row)
    ensures Earlier(a, b) || Earlier(b, a) || (a.created, a.id) == (b.created, b.id)
  {
    BelowTotal(a.id, b.id);
  }

  ghost predicate InOrder(rows: seq<Row>) {
    forall i, j :: 0 <= i < j < |rows| ==> Earlier(rows[i], rows[j])
  }

  const MAX_INBOX_RESPONSE_BYTES: nat := 1024 * 1024
  const INBOX_RESPONSE_OVERHEAD_BYTES: nat := 128
  const BUDGET: nat := MAX_INBOX_RESPONSE_BYTES - INBOX_RESPONSE_OVERHEAD_BYTES

  /** `(bytes * 4).div_ceil(3)`. */
  function Base64UrlLen(bytes: nat): nat {
    bytes * 4 / 3 + if bytes * 4 % 3 == 0 then 0 else 1
  }

  /** `inbox_item_cost`. */
  function ItemCost(r: Row): nat { |r.id| + Base64UrlLen(|r.sealed|) + 64 }

  /** The cost as the claim's SQL writes it; its division truncates. */
  function SqlCost(r: Row): nat { |r.id| + (|r.sealed| * 4 + 2) / 3 + 64 }

  /** The two formulas agree, and give the length of the text that is sent. */
  lemma CostsAgree(r: Row)
    ensures SqlCost(r) == ItemCost(r) == |r.id| + |Base64Url.Encode(r.sealed)| + 64
  {
    Base64Url.EncodedLength(r.sealed);
    var n := |r.sealed|;
    assert Base64UrlLen(n) == (n * 4 + 2) / 3;
  }

  function TotalCost(rows: seq<Row>): nat {
    if rows == [] then 0 else TotalCost(rows[..|rows| - 1]) + ItemCost(rows[|rows| - 1])
  }

  lemma NoRowsCostNothing(rows: seq<Row>)
    ensures TotalCost(rows[..0]) == 0
  {
    assert rows[..0] == [];
  }

  lemma {:induction false} TotalCostSplit(a: seq<Row>, b: seq<Row>)
    ensures TotalCost(a + b) == TotalCost(a) + TotalCost(b)
  {
    if b == [] {
      assert a + b == a;
    } else {
      var n := |b| - 1;
      assert (a + b)[..|a + b| - 1] == a + b[..n];
      TotalCostSplit(a, b[..n]);
    }
  }

  /** A sequence without its `k`-th element has one occurrence of it less. */
  lemma WithoutOne<T>(s: seq<T>, k: nat)
    requires k < |s|
    ensures multiset(s[..k] + s[k + 1..]) == multiset(s) - multiset{s[k]}
  {
    assert s == s[..k] + ([s[k]] + s[k + 1..]);
  }

  lemma CostWithoutOne(rows: seq<Row>, k: nat)
    requires k < |rows|
    ensures TotalCost(rows) == TotalCost(rows[..k] + rows[k + 1..]) + ItemCost(rows[k])
  {
    hide ItemCost;
    var before, one, after := rows[..k], [rows[k]], rows[k + 1..];
    assert rows == before + (one + after);
    assert TotalCost(one) == ItemCost(rows[k]) by { assert one[..0] == []; }
    TotalCostSplit(before, one + after);
    TotalCostSplit(one, after);
    TotalCostSplit(before, after);
  }

  lemma PermutedRest<T>(a: seq<T>, b: seq<T>) returns (k: nat)
    requires a != [] && multiset(a) == multiset(b)
    ensures k < |b| && b[k] == a[0] && multiset(a[1..]) == multiset(b[..k] + b[k + 1..])
  {
    assert a[0] in multiset(b);
    k :| 0 <= k < |b| && b[k] == a[0];
    assert a == [a[0]] + a[1..];
    WithoutOne(b, k);
  }

  /** The order of the rows does not change what they cost. */
  lemma {:induction false} TotalCostPermutes(a: seq<Row>, b: seq<Row>)
    requires multiset(a) == multiset(b)
    ensures TotalCost(a) == TotalCost(b)
    decreases |a|
  {
    hide ItemCost, TotalCost;
    if a == [] {
      assert |multiset(b)| == |b|;
    } else {
      var k := PermutedRest(a, b);
      CostWithoutOne(a, 0);
      CostWithoutOne(b, k);
      assert a[..0] + a[1..] == a[1..];
      TotalCostPermutes(a[1..], b[..k] + b[k + 1..]);
    }
  }

  /** What sealing adds to a plaintext. */
  const SEAL_BYTES: nat := 48
  const MAX_CAPTURE_BYTES: nat := 64 * 1024
  const MAX_ID: nat := 80

  /** A message of a size that can be stored. */
  predicate Sized(r: Row) {
    |r.id| <= MAX_ID && |r.sealed| <= MAX_CAPTURE_BYTES + SEAL_BYTES
  }

  /** A message as an enqueue can store it: its id comes from the server. */
  ghost predicate Storable(r: Row) {
    Sized(r) && |r.sealed| >= SEAL_BYTES && exists started, n :: r.id == MessageIds.MessageId(started, n)
  }

  lemma StorableId(r: Row)
    requires Storable(r)
    ensures ValidId(r.id) && 4 <= |r.id| <= 28
  {
    hide MessageIds.MessageId;
    var started, n :| r.id == MessageIds.MessageId(started, n);
    MessageIds.IdIsValid(started, n);
  }

  /** Any one message fits a response. */
  lemma SizedFits(r: Row)
    requires Sized(r)
    ensures ItemCost(r) <= BUDGET
  {
  }
}
