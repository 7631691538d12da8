/** The JSON of inbox responses, as `serde_json` writes the fields in order: no
    blanks, and nothing to escape in ids and base64url. */
module Responses {
  import opened Bits
  import opened Wrappers
  import opened InboxRows
  import opened Claims
  import opened Cursors
  import Base64Url
  import MessageIds

  function Quoted(text: string): string { "\"" + text + "\"" }

  function ItemJson(e: Envelope): string {
    "{\"id\":" + Quoted(e.id) + ",\"sealed\":" + Quoted(Chars(e.sealed)) + "}"
  }

  function ItemsJson(items: seq<Envelope>): string {
    if items == [] then ""
    else
      var n := |items| - 1;
      ItemsJson(items[..n]) + (if n == 0 then "" else ",") + ItemJson(items[n])
  }

  function Number(n: nat): string { Chars(Decimal(n)) }

  /** `PeekResponse`. */
  function PeekJson(items: seq<Envelope>, cursor: Option<seq<Byte>>): string {
    "{\"count\":" + Number(|items|) + ",\"items\":[" + ItemsJson(items) + "],\"cursor\":"
    + (if cursor.None? then "null" else Quoted(Chars(cursor.value))) + "}"
  }

  /** `ClaimResponse`. */
  function ClaimJson(items: seq<Envelope>): string {
    "{\"count\":" + Number(|items|) + ",\"items\":[" + ItemsJson(items) + "]}"
  }

  /** The items are those of the first `n` rows. */
  ghost predicate ItemsOf(items: seq<Envelope>, rows: seq<Row>) {
    |items| <= |rows| && forall i :: 0 <= i < |items| ==> items[i] == EnvelopeOf(rows[i])
  }

  /** An item's text is 43 characters shorter than its cost. */
  lemma ItemLength(r: Row)
    ensures |ItemJson(EnvelopeOf(r))| + 43 == ItemCost(r)
  {
    CostsAgree(r);
    hide Base64Url.Encode, SqlCost, ItemCost;
    var e := EnvelopeOf(r);
    assert |Quoted(e.id)| == |e.id| + 2 && |Quoted(Chars(e.sealed))| == |e.sealed| + 2;
  }

  lemma {:induction false} ItemsLength(items: seq<Envelope>, rows: seq<Row>)
    requires ItemsOf(items, rows)
    ensures |ItemsJson(items)| + 43 * |items| == TotalCost(rows[..|items|]) + if items == [] then 0 else |items| - 1
  {
    hide ItemJson, ItemCost, TotalCost, EnvelopeOf;
    if items == [] {
      NoRowsCostNothing(rows);
    } else {
      var n := |items| - 1;
      ItemsLength(items[..n], rows);
      TotalCostNext(rows, n);
      ItemLength(rows[n]);
    }
  }

  lemma {:induction false} DigitsAtMost(n: nat)
    ensures 1 <= |Decimal(n)| <= if n == 0 then 1 else n
  {
    if n >= 10 { DigitsAtMost(n / 10); }
  }

  /** A page is within the limit, for any number of items and any cursor. */
  lemma PeekResponseBound(rows: seq<Row>, items: seq<Envelope>, cursor: Option<seq<Byte>>)
    requires ItemsOf(items, rows) && TotalCost(rows[..|items|]) <= BUDGET
    requires cursor.Some? ==> |cursor.value| <= 134
    ensures |PeekJson(items, cursor)| <= 1_048_576
  {
    hide ItemsJson, TotalCost, Decimal;
    ItemsLength(items, rows);
    DigitsAtMost(|items|);
    var tail := if cursor.None? then "null" else Quoted(Chars(cursor.value));
    assert |tail| <= 136;
    assert |"{\"count\":"| == 9 && |",\"items\":["| == 10 && |"],\"cursor\":"| == 11;
    assert |PeekJson(items, cursor)| == 9 + |Number(|items|)| + 10 + |ItemsJson(items)| + 11 + |tail| + 1;
    if items == [] { NoRowsCostNothing(rows); }
  }

  /** So every page that a peek returns is, from its rows' own cursor or the one that
      was sent, whose time is any 64-bit number that is not negative. */
  lemma EveryPageIsBounded(rows: seq<Row>, items: seq<Envelope>, from: Option<Cursor>)
    requires ItemsOf(items, rows) && TotalCost(rows[..|items|]) <= BUDGET
    requires forall r :: r in rows ==> |r.id| <= MAX_ID && r.created < I64_LIMIT
    requires from.Some? ==> 0 <= from.value.created < I64_LIMIT && ValidId(from.value.id)
    ensures items == [] && from.None? ==> |PeekJson(items, None)| <= 1_048_576
    ensures items == [] && from.Some? ==> |PeekJson(items, Some(EncodeCursor(from.value)))| <= 1_048_576
    ensures items != [] ==> |PeekJson(items, Some(EncodeCursor(Cursor(rows[|items| - 1].created, rows[|items| - 1].id))))| <= 1_048_576
  {
    hide PeekJson, EncodeCursor, TotalCost, EnvelopeOf;
    var cursor := if from.None? then None else Some(EncodeCursor(from.value));
    if items != [] {
      var r := rows[|items| - 1];
      assert r in rows;
      CursorLength(Cursor(r.created, r.id));
      PeekResponseBound(rows, items, Some(EncodeCursor(Cursor(r.created, r.id))));
    } else {
      if from.Some? { CursorLength(from.value); }
      PeekResponseBound(rows, items, cursor);
    }
  }

  /** So is a claim's response. */
  lemma ClaimResponseBound(rows: seq<Row>, items: seq<Envelope>)
    requires ItemsOf(items, rows) && TotalCost(rows[..|items|]) <= BUDGET
    ensures |ClaimJson(items)| <= 1_048_576
  {
    hide ItemsJson, TotalCost, Decimal;
    ItemsLength(items, rows);
    DigitsAtMost(|items|);
    assert |"{\"count\":"| == 9 && |",\"items\":["| == 10 && |"]}"| == 2;
    assert |ClaimJson(items)| == 9 + |Number(|items|)| + 10 + |ItemsJson(items)| + 2;
    if items == [] { NoRowsCostNothing(rows); }
  }

  // ---- the largest page ------------------------------------------------------

  lemma {:induction false} StorableCost(rows: seq<Row>)
    requires forall r :: r in rows ==> Storable(r)
    ensures TotalCost(rows) <= 87_538 * |rows|
  {
    if rows != [] {
      var n := |rows| - 1;
      StorableCost(rows[..n]);
      assert Storable(rows[n]);
      StorableId(rows[n]);
      hide Storable;
    }
  }

  function CursorText(rows: seq<Row>, n: nat): seq<Byte>
    requires 1 <= n <= |rows|
  {
    EncodeCursor(Cursor(rows[n - 1].created, rows[n - 1].id))
  }

  /** The cursor of a generated id is at most 64 characters. */
  lemma StorableCursorLength(r: Row)
    requires Storable(r) && r.created < I64_LIMIT
    ensures |EncodeCursor(Cursor(r.created, r.id))| <= 64
  {
    StorableId(r);
    hide Base64Url.Encode, Storable;
    I64Digits();
    DecimalLength(r.created, 19);
    Base64Url.EncodedLength(RawCursor(Cursor(r.created, r.id)));
  }

  /** A page, in order, of different messages that can be stored. */
  ghost predicate RealPage(rows: seq<Row>, items: seq<Envelope>) {
    && InOrder(rows) && (forall i, j :: 0 <= i < j < |rows| ==> rows[i].id != rows[j].id)
    && (forall r :: r in rows ==> Storable(r) && r.created < I64_LIMIT)
    && items != [] && ItemsOf(items, rows) && Fits(rows, |items|)
  }

  lemma PageLength(items: seq<Envelope>, rows: seq<Row>, cursor: seq<Byte>)
    requires ItemsOf(items, rows) && items != []
    ensures |PeekJson(items, Some(cursor))| == |Decimal(|items|)| + TotalCost(rows[..|items|]) - 42 * |items| + |cursor| + 32
  {
    hide ItemsJson, TotalCost, Decimal;
    ItemsLength(items, rows);
    var tail := Quoted(Chars(cursor));
    assert |"{\"count\":"| == 9 && |",\"items\":["| == 10 && |"],\"cursor\":"| == 11;
    assert |PeekJson(items, Some(cursor))| == 9 + |Number(|items|)| + 10 + |ItemsJson(items)| + 11 + |tail| + 1;
  }

  /** The largest page is 534 bytes below the limit.  One message is at most a twelfth of
      the budget and a little: the more items, the more of the 64 bytes each that their
      punctuation does not need. */
  lemma LargestPageBound(rows: seq<Row>, items: seq<Envelope>)
    requires RealPage(rows, items)
    ensures |PeekJson(items, Some(CursorText(rows, |items|)))| <= 1_048_042
  {
    hide TotalCost, Storable, PeekJson, EncodeCursor, Decimal, InOrder;
    var n := |items|;
    PageLength(items, rows, CursorText(rows, n));
    StorableCost(rows[..n]);
    StorableCursorLength(rows[n - 1]);
    FewDigits(n);
  }

  lemma FewDigits(n: nat)
    requires n >= 1
    ensures n >= 10 ==> |Decimal(n)| <= n - 8
    ensures n < 100 ==> |Decimal(n)| <= 2
  {
    DigitsAtMost(n / 10);
    if n >= 100 { DigitsAtMost(n / 100); }
  }

  /** And a page without any is next to nothing, whatever cursor was sent. */
  lemma EmptyPageBound(cursor: Option<seq<Byte>>)
    requires cursor.Some? ==> |cursor.value| <= 134
    ensures |PeekJson([], cursor)| <= 168
  {
    var tail := if cursor.None? then "null" else Quoted(Chars(cursor.value));
    assert |tail| <= 136 && |Number(0)| == 1 && ItemsJson([]) == "";
    assert |"{\"count\":"| == 9 && |",\"items\":["| == 10 && |"],\"cursor\":"| == 11;
    assert |PeekJson([], cursor)| == 9 + |Number(0)| + 10 + |ItemsJson([])| + 11 + |tail| + 1;
  }

  /** Twelve messages with the longest ids that cost exactly the budget. */
  function LargestRow(i: nat): Row
    requires i < 12
  {
    Row(1_000_000_000_000_000_000 + i, MessageIds.MessageId(MessageIds.U64 - 1, MessageIds.U64 - 12 + i),
        seq(if i < 11 then 65_460 else 65_448, _ => 0))
  }

  function LargestRows(n: nat): (rows: seq<Row>)
    requires n <= 12
    ensures |rows| == n && forall i :: 0 <= i < n ==> rows[i] == LargestRow(i)
  {
    seq(n, i requires 0 <= i < n => LargestRow(i))
  }

  lemma LargestIdLength(i: nat)
    requires i < 12
    ensures |LargestRow(i).id| == 28
  {
    hide MessageIds.Base36, MessageIds.Pow36;
    MessageIds.PowersAround64();
    MessageIds.Base36Length(MessageIds.U64 - 1, 12);
    MessageIds.Base36Length(MessageIds.U64 - 12 + i, 12);
    MessageIds.IdIsValid(MessageIds.U64 - 1, MessageIds.U64 - 12 + i);
    assert (MessageIds.U64 - 1) % MessageIds.U64 == MessageIds.U64 - 1;
    assert (MessageIds.U64 - 12 + i) % MessageIds.U64 == MessageIds.U64 - 12 + i;
  }

  lemma {:induction false} LargestCost(n: nat)
    requires n <= 12
    ensures TotalCost(LargestRows(n)) == if n == 12 then BUDGET else 87_372 * n
  {
    if n > 0 {
      LargestCost(n - 1);
      LargestIdLength(n - 1);
      hide MessageIds.MessageId;
      assert LargestRows(n)[..n - 1] == LargestRows(n - 1);
    }
  }

  lemma {:induction false} DigitsAtLeast(n: nat, k: nat)
    requires k >= 1 && n >= Pow10(k - 1)
    ensures |Decimal(n)| >= k
  {
    if k > 1 { DigitsAtLeast(n / 10, k - 1); }
  }

  lemma LargestCursor()
    ensures var last := LargestRow(11); |EncodeCursor(Cursor(last.created, last.id))| == 64
  {
    hide Base64Url.Encode, MessageIds.MessageId;
    var last := LargestRow(11);
    LargestIdLength(11);
    I64Digits();
    DecimalLength(last.created, 19);
    assert Pow10(7) == 1000_0000;
    assert Pow10(18) <= 1_000_000_000_000_000_000;
    DigitsAtLeast(last.created, 19);
    Base64Url.EncodedLength(RawCursor(Cursor(last.created, last.id)));
  }

  lemma LargestRowsFit()
    ensures forall i, j :: 0 <= i < j < 12 ==> Earlier(LargestRow(i), LargestRow(j)) && LargestRow(i).id != LargestRow(j).id
    ensures forall i :: 0 <= i < 12 ==> Storable(LargestRow(i)) && LargestRow(i).created < I64_LIMIT
  {
    hide MessageIds.MessageId;
    forall i, j | 0 <= i < j < 12 ensures LargestRow(i).id != LargestRow(j).id {
      MessageIds.IdsAreDistinct(MessageIds.U64 - 1, MessageIds.U64 - 12 + i, MessageIds.U64 - 1, MessageIds.U64 - 12 + j);
    }
    forall i | 0 <= i < 12 ensures Storable(LargestRow(i)) {
      LargestIdLength(i);
      assert LargestRow(i).id == MessageIds.MessageId(MessageIds.U64 - 1, MessageIds.U64 - 12 + i);
    }
  }

  /** The bound is reached. */
  lemma LargestPageIsReached()
    ensures exists rows, items :: RealPage(rows, items) && |PeekJson(items, Some(CursorText(rows, |items|)))| == 1_048_042
  {
    hide TotalCost, EnvelopeOf, EncodeCursor, Earlier, Storable, LargestRow, PeekJson;
    var rows := LargestRows(12);
    var items := seq(12, i requires 0 <= i < 12 => EnvelopeOf(rows[i]));
    LargestCost(12);
    assert rows[..12] == rows;
    LargestCursor();
    LargestRowsFit();
    assert ItemsOf(items, rows);
    PageLength(items, rows, CursorText(rows, 12));
    assert RealPage(rows, items);
  }
}
