/** Peeks that page through an inbox with a cursor, while its rows come and go. */
module Paging {
  import opened Bits
  import opened Wrappers
  import opened StringOrder
  import opened InboxRows
  import opened InboxTable
  import opened Claims
  import opened Cursors
  import Base64Url

  /** `created_at_us > $3 OR (created_at_us = $3 AND id > $4)`, or no cursor. */
  predicate After(r: Row, cursor: Option<Cursor>) {
    cursor.None? || r.created > cursor.value.created || (r.created == cursor.value.created && Below(cursor.value.id, r.id))
  }

  ghost predicate Matches(table: Table, now: Time, cursor: Option<Cursor>, r: Row) {
    r.id in table && table[r.id].row == r && Ready(table[r.id], now) && After(r, cursor)
  }

  /** The result of the peek's query before its `LIMIT`. */
  ghost predicate Listing(all: seq<Row>, table: Table, now: Time, cursor: Option<Cursor>) {
    InOrder(all) && forall r :: r in all <==> Matches(table, now, cursor, r)
  }

  function First(limit: nat, rows: seq<Row>): seq<Row> {
    if limit < |rows| then rows[..limit] else rows
  }

  function CursorOf(r: Row): Cursor { Cursor(r.created, r.id) }

  /** `page_from_rows`. */
  method PageFromRows(rows: seq<Row>, from: Option<Cursor>) returns (items: seq<Envelope>, cursor: Option<seq<Byte>>)
    requires from.Some? ==> from.value.created >= 0
    ensures Fits(rows, |items|)
    ensures forall i :: 0 <= i < |items| ==> items[i] == EnvelopeOf(rows[i])
    ensures forall i :: 0 <= i < |items| ==> items[i].id == rows[i].id && Base64Url.Decode(items[i].sealed) == Some(rows[i].sealed)
    ensures items == [] ==> cursor == if from.Some? then Some(EncodeCursor(from.value)) else None
    ensures items != [] ==> cursor == Some(EncodeCursor(CursorOf(rows[|items| - 1])))
  {
    hide EncodeCursor, EnvelopeOf, ItemCost, TotalCost, Base64Url.Decode;
    items := [];
    cursor := if from.Some? then Some(EncodeCursor(from.value)) else None;
    var used := 0;
    NoRowsCostNothing(rows);
    for n := 0 to |rows|
      invariant |items| == n && used == TotalCost(rows[..n]) <= BUDGET
      invariant forall i :: 0 <= i < n ==> items[i] == EnvelopeOf(rows[i])
      invariant n == 0 ==> cursor == if from.Some? then Some(EncodeCursor(from.value)) else None
      invariant n > 0 ==> cursor == Some(EncodeCursor(CursorOf(rows[n - 1])))
    {
      var cost := ItemCost(rows[n]);
      TotalCostNext(rows, n);
      if used + cost > BUDGET { ItemsCarry(items, rows); return; }
      used := used + cost;
      cursor := Some(EncodeCursor(CursorOf(rows[n])));
      items := items + [EnvelopeOf(rows[n])];
    }
    assert rows[..|rows|] == rows;
    ItemsCarry(items, rows);
  }

  /** A page stops at the limit, at the last row, or before the row that would exceed the
      budget, and nowhere else. */
  lemma PageStops(p: Peek, cursor: Option<Cursor>)
    requires Page(p, cursor)
    ensures p.n <= p.limit && p.n <= |p.all| && TotalCost(p.all[..p.n]) <= BUDGET
    ensures p.n < p.limit && p.n < |p.all| ==> TotalCost(p.all[..p.n + 1]) > BUDGET
  {
    hide TotalCost, Listing;
    var first := First(p.limit, p.all);
    assert first[..p.n] == p.all[..p.n];
    if p.n < |first| { assert first[..p.n + 1] == p.all[..p.n + 1]; }
  }

  /** One peek of a chain: the table and the time it found, its limit, the rows that
      its query selects, and how many of them its page holds. */
  datatype Peek = Peek(table: Table, now: Time, limit: nat, all: seq<Row>, n: nat)

  /** The cursor after the chain's peeks: of the last row of the last page with one. */
  function CursorAfter(chain: seq<Peek>): Option<Cursor> {
    if chain == [] then None
    else
      var p := chain[|chain| - 1];
      if 1 <= p.n <= |p.all| then Some(CursorOf(p.all[p.n - 1])) else CursorAfter(chain[..|chain| - 1])
  }

  /** All rows returned, in the order of the pages. */
  function Returned(chain: seq<Peek>): seq<Row> {
    if chain == [] then []
    else
      var p := chain[|chain| - 1];
      Returned(chain[..|chain| - 1]) + if p.n <= |p.all| then p.all[..p.n] else []
  }

  ghost predicate Page(p: Peek, cursor: Option<Cursor>) {
    && Listing(p.all, p.table, p.now, cursor)
    && p.limit >= 1 && Fits(First(p.limit, p.all), p.n)
  }

  /** Every peek uses the cursor of the one before it; `inbox_limit` is at least 1. */
  ghost predicate Chain(chain: seq<Peek>)
    decreases |chain|
  {
    chain != [] ==> Chain(chain[..|chain| - 1]) && Page(chain[|chain| - 1], CursorAfter(chain[..|chain| - 1]))
  }

  /** The cursor is that of the last row returned. */
  lemma {:induction false} CursorIsLast(chain: seq<Peek>)
    requires Chain(chain)
    ensures CursorAfter(chain) == if Returned(chain) == [] then None else Some(CursorOf(Returned(chain)[|Returned(chain)| - 1]))
    decreases |chain|
  {
    hide Listing, Fits;
    if chain != [] { CursorIsLast(chain[..|chain| - 1]); }
  }

  /** Over a chain of peeks the rows returned ascend strictly. */
  lemma {:induction false} PagesAscend(chain: seq<Peek>)
    requires Chain(chain)
    ensures InOrder(Returned(chain))
    decreases |chain|
  {
    hide Fits;
    if chain != [] {
      var before := chain[..|chain| - 1];
      var p := chain[|chain| - 1];
      PagesAscend(before);
      CursorIsLast(before);
      PageSize(p, CursorAfter(before));
      Append(Returned(before), p.all[..p.n]);
    }
  }

  lemma PageSize(p: Peek, cursor: Option<Cursor>)
    requires Page(p, cursor)
    ensures p.n <= |p.all|
    ensures InOrder(p.all[..p.n]) && forall r :: r in p.all[..p.n] ==> After(r, cursor)
  {
    hide Earlier, After, Ready, TotalCost;
    forall r | r in p.all[..p.n] ensures After(r, cursor) {
      assert r in p.all;
      assert Matches(p.table, p.now, cursor, r);
    }
  }

  lemma Append(a: seq<Row>, b: seq<Row>)
    requires InOrder(a) && InOrder(b)
    requires a != [] ==> forall r :: r in b ==> After(r, Some(CursorOf(a[|a| - 1])))
    ensures InOrder(a + b)
  {
    hide Below;
    forall i, j | 0 <= i < j < |a + b| ensures Earlier((a + b)[i], (a + b)[j]) {
      if i < |a| <= j {
        assert b[j - |a|] in b;
        if i < |a| - 1 { EarlierTransitive(a[i], a[|a| - 1], b[j - |a|]); }
      }
    }
  }

  /** An id stands for the same message in all the tables: ids are used once. */
  ghost predicate SameRows(chain: seq<Peek>) {
    forall i, j, id :: 0 <= i < |chain| && 0 <= j < |chain| && id in chain[i].table && id in chain[j].table ==>
      chain[i].table[id].row == chain[j].table[id].row
  }

  lemma {:induction false} ReturnedWasStored(chain: seq<Peek>, r: Row)
    requires Chain(chain) && r in Returned(chain)
    ensures exists i :: 0 <= i < |chain| && r.id in chain[i].table && chain[i].table[r.id].row == r
    decreases |chain|
  {
    hide Fits;
    var before := chain[..|chain| - 1];
    var p := chain[|chain| - 1];
    PageSize(p, CursorAfter(before));
    if r in Returned(before) {
      ReturnedWasStored(before, r);
      var i :| 0 <= i < |before| && r.id in before[i].table && before[i].table[r.id].row == r;
      assert chain[i] == before[i];
    } else {
      assert Matches(p.table, p.now, CursorAfter(before), r);
    }
  }

  /** No id is returned twice, whatever happens between the peeks. */
  lemma NoIdTwice(chain: seq<Peek>, i: nat, j: nat)
    requires Chain(chain) && SameRows(chain) && i < j < |Returned(chain)|
    ensures Returned(chain)[i].id != Returned(chain)[j].id
  {
    hide Returned, Chain;
    var a, b := Returned(chain)[i], Returned(chain)[j];
    PagesAscend(chain);
    ReturnedWasStored(chain, a);
    ReturnedWasStored(chain, b);
    EarlierIrreflexive(a, b);
  }

  ghost predicate ReadyAt(p: Peek, m: Row) {
    m.id in p.table && p.table[m.id].row == m && Ready(p.table[m.id], p.now)
  }

  /** What was ready at every peek is either returned or still after the cursor. */
  lemma {:induction false} ReturnedOrAfter(chain: seq<Peek>, m: Row)
    requires Chain(chain) && forall i :: 0 <= i < |chain| ==> ReadyAt(chain[i], m)
    ensures m in Returned(chain) || After(m, CursorAfter(chain))
    decreases |chain|
  {
    hide ReadyAt;
    if chain != [] {
      var before := chain[..|chain| - 1];
      var p := chain[|chain| - 1];
      forall i | 0 <= i < |before| ensures ReadyAt(before[i], m) { assert before[i] == chain[i]; }
      ReturnedOrAfter(before, m);
      if m !in Returned(before) { PageTakesOrPasses(p, CursorAfter(before), m); }
    }
  }

  lemma PageTakesOrPasses(p: Peek, cursor: Option<Cursor>, m: Row)
    requires Page(p, cursor) && ReadyAt(p, m) && After(m, cursor)
    ensures p.n <= |p.all|
    ensures m in p.all[..p.n] || p.n == 0 || After(m, Some(CursorOf(p.all[p.n - 1])))
  {
    hide Below, TotalCost;
    assert Matches(p.table, p.now, cursor, m);
    var k :| 0 <= k < |p.all| && p.all[k] == m;
    if k < p.n { assert p.all[..p.n][k] == m; } else if p.n > 0 { assert Earlier(p.all[p.n - 1], p.all[k]); }
  }

  /** Once a page comes back empty, every message that was ready at all the peeks has
      been returned. */
  lemma NothingMissed(chain: seq<Peek>, m: Row)
    requires Chain(chain) && chain != [] && chain[|chain| - 1].n == 0
    requires forall i :: 0 <= i < |chain| ==> ReadyAt(chain[i], m)
    requires forall r :: r in chain[|chain| - 1].all ==> Sized(r)
    ensures m in Returned(chain)
  {
    var before := chain[..|chain| - 1];
    var p := chain[|chain| - 1];
    ReturnedOrAfter(chain, m);
    if m !in Returned(chain) {
      EmptyPage(p, CursorAfter(before), m);
    }
  }

  lemma EmptyPage(p: Peek, cursor: Option<Cursor>, m: Row)
    requires Page(p, cursor) && p.n == 0 && ReadyAt(p, m)
    requires forall r :: r in p.all ==> Sized(r)
    ensures !After(m, cursor)
  {
    hide After, Ready, Sized, Earlier;
    if After(m, cursor) {
      assert Matches(p.table, p.now, cursor, m);
      FirstRowFits(First(p.limit, p.all));
    }
  }

  lemma FirstRowFits(rows: seq<Row>)
    requires rows != [] && Sized(rows[0])
    ensures !Fits(rows, 0)
  {
    SizedFits(rows[0]);
    assert rows[..0] == [];
    TotalCostNext(rows, 0);
  }
}
