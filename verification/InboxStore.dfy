/** The inbox operations of the server, each run by itself.  A transaction works on
    copies of the tables, which its commit puts in place. */
module InboxStore {
  import opened Bits
  import opened Wrappers
  import opened MachineInts
  import opened StringOrder
  import opened InboxRows
  import opened InboxTable
  import opened Claims
  import opened Cursors
  import opened Paging
  import Base64Url

  type Key = string

  datatype Message = Message(key: Key, sealed: seq<Byte>)

  /** `r` put in its place among rows in order. */
  function InsertRow(r: Row, rows: seq<Row>): seq<Row> {
    if rows == [] || Earlier(r, rows[0]) then [r] + rows else [rows[0]] + InsertRow(r, rows[1..])
  }

  lemma {:induction false} InsertRowKeepsOrder(r: Row, rows: seq<Row>)
    requires InOrder(rows) && forall x :: x in rows ==> x.id != r.id
    ensures InOrder(InsertRow(r, rows))
    ensures forall x :: x in InsertRow(r, rows) <==> x == r || x in rows
  {
    hide Earlier;
    if rows == [] {
    } else if Earlier(r, rows[0]) {
      forall i | 0 < i < |rows| ensures Earlier(r, rows[i]) { EarlierTransitive(r, rows[0], rows[i]); }
    } else {
      EarlierTotal(r, rows[0]);
      InsertRowKeepsOrder(r, rows[1..]);
      var rest := InsertRow(r, rows[1..]);
      assert rows == [rows[0]] + rows[1..];
      forall i | 0 <= i < |rest| ensures Earlier(rows[0], rest[i]) {
        assert rest[i] in rest;
        if rest[i] != r {
          var k :| 0 <= k < |rows[1..]| && rows[1..][k] == rest[i];
          assert rows[k + 1] == rest[i];
        }
      }
    }
  }

  ghost predicate Keyed(table: Table) {
    forall id :: id in table ==> table[id].row.id == id
  }

  /** The rows that match, without those that are locked, `ORDER BY created_at, id`. */
  ghost predicate Found(all: seq<Row>, table: Table, now: Time, cursor: Option<Cursor>, locked: set<Id>) {
    InOrder(all) && forall r :: r in all <==> Matches(table, now, cursor, r) && r.id !in locked
  }

  /** Exactly the rows without a lease, or with one that has ended, that nobody has locked
      and that come after the cursor. */
  lemma FoundIs(all: seq<Row>, table: Table, now: Time, cursor: Option<Cursor>, locked: set<Id>)
    requires Keyed(table) && Found(all, table, now, cursor, locked)
    ensures InOrder(all) && (forall r :: r in all ==> r.id in table && table[r.id].row == r && r.id !in locked)
    ensures forall id :: id in table ==>
      (table[id].row in all <==>
       && id !in locked && (table[id].lease.None? || table[id].lease.value <= now)
       && (cursor.None? || table[id].row.created > cursor.value.created
           || (table[id].row.created == cursor.value.created && Below(cursor.value.id, table[id].row.id))))
  {
    hide Below;
  }

  /** `ORDER BY created_at, id`. */
  lemma OrderIs(all: seq<Row>)
    requires InOrder(all)
    ensures forall i, j :: 0 <= i < j < |all| ==>
      all[i].created < all[j].created || (all[i].created == all[j].created && Below(all[i].id, all[j].id))
  {
    hide Below;
  }

  /** A claim takes, in some order, the first rows, up to the limit and the budget. */
  lemma ClaimedIs(limit: nat, all: seq<Row>, rows: seq<Row>)
    requires multiset(rows) == multiset(Chosen(First(limit, all)))
    ensures |rows| <= limit && |rows| <= |all| && multiset(rows) == multiset(all[..|rows|]) && TotalCost(rows) <= BUDGET
    ensures |rows| < limit && |rows| < |all| ==> TotalCost(all[..|rows| + 1]) > BUDGET
  {
    hide TotalCost, ChosenAmong;
    var candidates := First(limit, all);
    NoRowsCostNothing(candidates);
    var n := SomePrefixFits(candidates, 0);
    ChosenIsPrefix(candidates, |candidates|, n);
    assert |multiset(rows)| == |rows| && |multiset(candidates[..n])| == n;
    TotalCostPermutes(rows, candidates[..n]);
    assert candidates[..n] == all[..n];
    if n < |candidates| { assert candidates[..n + 1] == all[..n + 1]; }
  }

  lemma LeasedIs(all: seq<Row>, table: Table, rows: seq<Row>, until: Time)
    requires Keyed(table) && (forall r :: r in all ==> r.id in table && table[r.id].row == r)
    requires |rows| <= |all| && multiset(rows) == multiset(all[..|rows|])
    ensures var box := Lease(table, Ids(rows), until);
      && box.Keys == table.Keys
      && forall id :: id in table ==> box[id] == if table[id].row in rows then Stored(table[id].row, Some(until)) else table[id]
  {
    forall id | id in table ensures id in Ids(rows) <==> table[id].row in rows {
      if id in Ids(rows) {
        var i :| 0 <= i < |rows| && rows[i].id == id;
        assert rows[i] in multiset(all[..|rows|]);
      }
      if table[id].row in rows {
        var i :| 0 <= i < |rows| && rows[i] == table[id].row;
        assert Ids(rows)[i] == id;
      }
    }
  }

  method Select(table: Table, now: Time, cursor: Option<Cursor>, locked: set<Id>) returns (all: seq<Row>)
    requires Keyed(table)
    ensures Found(all, table, now, cursor, locked)
  {
    hide Earlier, Ready, After;
    all := [];
    var ids := table.Keys;
    while ids != {}
      invariant ids <= table.Keys && InOrder(all)
      invariant forall r :: r in all <==> Matches(table, now, cursor, r) && r.id !in locked && r.id !in ids
      decreases ids
    {
      var id :| id in ids;
      ids := ids - {id};
      var x := table[id];
      if id !in locked && Ready(x, now) && After(x.row, cursor) {
        InsertRowKeepsOrder(x.row, all);
        all := InsertRow(x.row, all);
      }
    }
  }

  /** `batch_result`: how many ids were found, and the requested ids that were not, in
      the order of the request; `at` are their places there. */
  method BatchResult(ids: seq<Id>, rows: seq<Id>) returns (found: nat, missing: seq<Id>, ghost at: seq<nat>)
    ensures found == |set id | id in rows|
    ensures |missing| == |at| && forall j :: 0 <= j < |at| ==> at[j] < |ids| && missing[j] == ids[at[j]]
    ensures forall j, k :: 0 <= j < k < |at| ==> at[j] < at[k]
    ensures forall i: nat :: i < |ids| ==> (i in at <==> ids[i] !in rows)
  {
    var seen := set id | id in rows;
    missing, at := [], [];
    for i := 0 to |ids|
      invariant |missing| == |at| && forall j :: 0 <= j < |at| ==> at[j] < i && missing[j] == ids[at[j]]
      invariant forall j, k :: 0 <= j < k < |at| ==> at[j] < at[k]
      invariant forall n: nat :: n < i ==> (n in at <==> ids[n] !in rows)
    {
      if ids[i] !in seen { missing, at := missing + [ids[i]], at + [i]; }
    }
    found := |seen|;
  }

  /** The ids of a request that a table has, each once: the `RETURNING` rows. */
  method Returning(table: Table, ids: seq<Id>) returns (rows: seq<Id>)
    ensures forall id :: id in rows <==> id in ids && id in table
    ensures forall i, j :: 0 <= i < j < |rows| ==> rows[i] != rows[j]
  {
    rows := [];
    for i := 0 to |ids|
      invariant forall id :: id in rows <==> id in ids[..i] && id in table
      invariant forall j, k :: 0 <= j < k < |rows| ==> rows[j] != rows[k]
    {
      if ids[i] in table && ids[i] !in rows { rows := rows + [ids[i]]; }
    }
  }

  lemma {:induction false} DistinctCount(s: seq<Id>)
    requires forall i, j :: 0 <= i < j < |s| ==> s[i] != s[j]
    ensures |set id | id in s| == |s|
  {
    if s != [] {
      var n := |s| - 1;
      DistinctCount(s[..n]);
      assert (set id | id in s) == (set id | id in s[..n]) + {s[n]};
      assert s[n] !in s[..n];
    }
  }

  function CountIn(counts: map<Key, int>, k: Key): int { if k in counts then counts[k] else 0 }

  function BoxIn(boxes: map<Key, Table>, k: Key): Table { if k in boxes then boxes[k] else map[] }

  function KeysOf(messages: seq<Message>): (keys: seq<Key>)
    ensures |keys| == |messages| && forall i :: 0 <= i < |messages| ==> keys[i] == messages[i].key
  {
    seq(|messages|, i requires 0 <= i < |messages| => messages[i].key)
  }

  lemma MessageOfKey(messages: seq<Message>)
    ensures forall k :: k in KeysOf(messages) <==> exists m :: m in messages && m.key == k
  {
    forall k ensures k in KeysOf(messages) <==> exists m :: m in messages && m.key == k {
      if k in KeysOf(messages) {
        var i :| 0 <= i < |messages| && KeysOf(messages)[i] == k;
        assert messages[i] in messages;
      }
      if m :| m in messages && m.key == k {
        var i :| 0 <= i < |messages| && messages[i] == m;
        assert KeysOf(messages)[i] == k;
      }
    }
  }

  lemma OneMore(box: Table, x: Stored)
    requires Keyed(box) && x.row.id !in box
    ensures Keyed(box[x.row.id := x]) && |box[x.row.id := x]| == |box| + 1
  {
    assert box[x.row.id := x].Keys == box.Keys + {x.row.id};
  }

  /** Every counter is the number of messages, and within the limit. */
  ghost predicate Consistent(counts: map<Key, int>, boxes: map<Key, Table>, maxRequests: nat) {
    forall k :: Keyed(BoxIn(boxes, k)) && CountIn(counts, k) == |BoxIn(boxes, k)| <= maxRequests
  }

  lemma BoxOf(counts: map<Key, int>, boxes: map<Key, Table>, maxRequests: nat, k: Key)
    requires Consistent(counts, boxes, maxRequests)
    ensures Keyed(BoxIn(boxes, k)) && CountIn(counts, k) == |BoxIn(boxes, k)| <= maxRequests
  {
  }

  lemma OneBoxChanges(counts: map<Key, int>, boxes: map<Key, Table>, maxRequests: nat, k: Key, box: Table, c: map<Key, int>)
    requires Consistent(counts, boxes, maxRequests)
    requires Keyed(box) && CountIn(c, k) == |box| <= maxRequests
    requires forall other :: other != k ==> CountIn(c, other) == CountIn(counts, other)
    ensures Consistent(c, boxes[k := box], maxRequests)
  {
    hide Keyed;
    var after := boxes[k := box];
    forall other ensures Keyed(BoxIn(after, other)) && CountIn(c, other) == |BoxIn(after, other)| <= maxRequests {
      BoxOf(counts, boxes, maxRequests, other);
      assert other != k ==> BoxIn(after, other) == BoxIn(boxes, other);
    }
  }

  /** The first pass: a counter row for every key. */
  method EnsureCounts(counts: map<Key, int>, keys: seq<Key>) returns (c: map<Key, int>)
    ensures forall k :: CountIn(c, k) == CountIn(counts, k)
    ensures forall k :: k in c <==> k in counts || k in keys
  {
    c := counts;
    for i := 0 to |keys|
      invariant forall k :: CountIn(c, k) == CountIn(counts, k)
      invariant forall k :: k in c <==> k in counts || k in keys[..i]
    {
      if keys[i] !in c { c := c[keys[i] := 0]; }
    }
  }

  /** The second pass: every counter below the limit. */
  method HaveRoom(c: map<Key, int>, keys: seq<Key>, maxRequests: nat) returns (room: bool)
    requires forall k :: k in keys ==> k in c && 0 <= c[k] < USIZE
    ensures room <==> forall k :: k in keys ==> c[k] < maxRequests
  {
    for i := 0 to |keys|
      invariant forall k :: k in keys[..i] ==> c[k] < maxRequests
    {
      assert keys[i] in keys;
      if AsUsize(c[keys[i]]) >= maxRequests { return false; }
    }
    assert keys[..|keys|] == keys;
    return true;
  }

  /** The insertions, with the keys of the rows that were not there. */
  method InsertRows(boxes: map<Key, Table>, id: Id, messages: seq<Message>, now: Time)
    returns (b: map<Key, Table>, inserted: seq<Key>)
    requires forall i, j :: 0 <= i < j < |messages| ==> messages[i].key != messages[j].key
    ensures forall k :: k in inserted <==> k in KeysOf(messages) && id !in BoxIn(boxes, k)
    ensures forall i, j :: 0 <= i < j < |inserted| ==> inserted[i] != inserted[j]
    ensures forall k :: k !in inserted ==> BoxIn(b, k) == BoxIn(boxes, k)
    ensures forall m :: m in messages && m.key in inserted ==>
      BoxIn(b, m.key) == BoxIn(boxes, m.key)[id := Stored(Row(now, id, m.sealed), None)]
  {
    b, inserted := boxes, [];
    for i := 0 to |messages|
      invariant forall k :: k in inserted <==> k in KeysOf(messages)[..i] && id !in BoxIn(boxes, k)
      invariant forall j, k :: 0 <= j < k < |inserted| ==> inserted[j] != inserted[k]
      invariant forall k :: k !in inserted ==> BoxIn(b, k) == BoxIn(boxes, k)
      invariant forall j :: 0 <= j < i && messages[j].key in inserted ==>
        BoxIn(b, messages[j].key) == BoxIn(boxes, messages[j].key)[id := Stored(Row(now, id, messages[j].sealed), None)]
    {
      var m := messages[i];
      assert m.key !in KeysOf(messages)[..i];
      assert KeysOf(messages)[..i + 1] == KeysOf(messages)[..i] + [m.key];
      if id !in BoxIn(b, m.key) {
        b := b[m.key := BoxIn(b, m.key)[id := Stored(Row(now, id, m.sealed), None)]];
        inserted := inserted + [m.key];
      }
    }
    assert KeysOf(messages)[..|messages|] == KeysOf(messages);
  }

  /** The counter updates. */
  method BumpCounts(counts: map<Key, int>, inserted: seq<Key>) returns (c: map<Key, int>)
    requires forall k :: k in inserted ==> k in counts
    requires forall i, j :: 0 <= i < j < |inserted| ==> inserted[i] != inserted[j]
    ensures forall k :: CountIn(c, k) == CountIn(counts, k) + if k in inserted then 1 else 0
  {
    c := counts;
    for i := 0 to |inserted|
      invariant c.Keys == counts.Keys
      invariant forall k :: CountIn(c, k) == CountIn(counts, k) + if k in inserted[..i] then 1 else 0
    {
      assert inserted[i] !in inserted[..i];
      c := c[inserted[i] := c[inserted[i]] + 1];
    }
    assert inserted[..|inserted|] == inserted;
  }

  /** `inbox_counts`, and the messages of each inbox. */
  class Store {
    var counts: map<Key, int>
    var boxes: map<Key, Table>
    const maxRequests: nat

    constructor (maxRequests: nat)
      requires maxRequests < USIZE
      ensures Valid() && this.maxRequests == maxRequests && forall k :: Box(k) == map[]
    {
      this.maxRequests := maxRequests;
      counts, boxes := map[], map[];
    }

    function Box(k: Key): Table
      reads this
    {
      BoxIn(boxes, k)
    }

    ghost predicate Valid()
      reads this
    {
      maxRequests < USIZE && Consistent(counts, boxes, maxRequests)
    }

    /** `insert_inbox_messages`, up to its notifications: `Ok` has the keys to notify. */
    method InsertInboxMessages(id: Id, messages: seq<Message>, now: Time) returns (r: Result<seq<Key>>)
      requires Valid() && forall i, j :: 0 <= i < j < |messages| ==> messages[i].key != messages[j].key
      modifies this
      ensures Valid()
      ensures r.Ok? <==> forall m :: m in messages ==> |old(Box(m.key))| < maxRequests
      ensures r.Err? ==> boxes == old(boxes) && counts == old(counts)
      ensures r.Ok? ==> forall k :: k in r.value <==> id !in old(Box(k)) && exists m :: m in messages && m.key == k
      ensures r.Ok? ==> forall i, j :: 0 <= i < j < |r.value| ==> r.value[i] != r.value[j]
      ensures r.Ok? ==> forall k :: k !in r.value ==> Box(k) == old(Box(k))
      ensures r.Ok? ==> forall m :: m in messages && m.key in r.value ==>
        Box(m.key) == old(Box(m.key))[id := Stored(Row(now, id, m.sealed), None)]
    {
      hide Keyed, Sort;
      var keys := KeysOf(messages);
      SortAscends(keys);
      var inboxKeys := Sort(keys);
      var newCounts := EnsureCounts(counts, inboxKeys);
      assert forall k :: k in inboxKeys ==> newCounts[k] == CountIn(counts, k) == |Box(k)|;
      var room := HaveRoom(newCounts, inboxKeys, maxRequests);
      MessageOfKey(messages);
      assert forall k :: k in inboxKeys <==> k in keys;
      if !room { return Err("inbox is full"); }
      var newBoxes, inserted := InsertRows(boxes, id, messages, now);
      newCounts := BumpCounts(newCounts, inserted);
      forall k ensures Keyed(BoxIn(newBoxes, k)) && CountIn(newCounts, k) == |BoxIn(newBoxes, k)| <= maxRequests {
        if k in inserted {
          var m :| m in messages && m.key == k;
          OneMore(Box(k), Stored(Row(now, id, m.sealed), None));
        }
      }
      counts, boxes := newCounts, newBoxes;
      return Ok(inserted);
    }

    /** `claim_once`: `locked` are the messages that other transactions have locked,
        and the updated rows come back in any order. */
    method ClaimOnce(k: Key, limit: nat, now: Time, locked: set<Id>)
      returns (items: seq<Envelope>, ghost all: seq<Row>, ghost rows: seq<Row>)
      requires Valid()
      modifies this
      ensures Valid() && counts == old(counts)
      ensures forall r :: r in all ==> r.id in old(Box(k)) && old(Box(k))[r.id].row == r
      ensures forall i, j :: 0 <= i < j < |all| ==>
        all[i].created < all[j].created || (all[i].created == all[j].created && Below(all[i].id, all[j].id))
      ensures forall id :: id in old(Box(k)) && id !in locked ==>
        (old(Box(k))[id].row in all <==> old(Box(k))[id].lease.None? || old(Box(k))[id].lease.value <= now)
      ensures forall r :: r in all ==> r.id !in locked
      ensures |rows| <= limit && |rows| <= |all| && multiset(rows) == multiset(all[..|rows|])
      ensures TotalCost(rows) <= BUDGET
      ensures |rows| < limit && |rows| < |all| ==> TotalCost(all[..|rows| + 1]) > BUDGET
      ensures Box(k).Keys == old(Box(k)).Keys
      ensures forall id :: id in Box(k) ==>
        Box(k)[id] == if old(Box(k))[id].row in rows then Stored(old(Box(k))[id].row, Some(now + 600_000_000)) else old(Box(k))[id]
      ensures forall other :: other != k ==> Box(other) == old(Box(other))
      ensures |items| == |rows|
      ensures forall i :: 0 <= i < |items| ==> items[i].id == rows[i].id && Base64Url.Decode(items[i].sealed) == Some(rows[i].sealed)
    {
      hide Chosen, Fits, Consistent, Keyed, Lease, EnvelopeOf, Base64Url.Decode, Found, First, TotalCost, InOrder, Below;
      BoxOf(counts, boxes, maxRequests, k);
      var box := Box(k);
      var ready := Select(box, now, None, locked);
      var candidates := First(limit, ready);
      all := ready;
      var updated :| multiset(updated) == multiset(Chosen(candidates));
      rows := updated;
      LeaseKeeps(box, Ids(updated), Some(now + RECOVERY));
      OneBoxChanges(counts, boxes, maxRequests, k, Lease(box, Ids(updated), now + RECOVERY), counts);
      boxes := boxes[k := Lease(box, Ids(updated), now + RECOVERY)];
      items := EnvelopesFromRows(updated);
      LeasedFit(candidates, updated);
      FoundIs(all, box, now, None, locked);
      OrderIs(all);
      ClaimedIs(limit, all, rows);
      LeasedIs(all, box, rows, now + RECOVERY);
    }

    /** `peek_messages`. */
    method PeekMessages(k: Key, limit: nat, now: Time, from: Option<Cursor>)
      returns (items: seq<Envelope>, cursor: Option<seq<Byte>>, ghost page: Peek)
      requires Valid() && limit >= 1 && (from.Some? ==> from.value.created >= 0)
      ensures page.table == Box(k) && page.now == now && page.limit == limit && Page(page, from) && |items| == page.n <= |page.all|
      ensures forall id :: id in Box(k) ==>
        (Box(k)[id].row in page.all <==>
         && (Box(k)[id].lease.None? || Box(k)[id].lease.value <= now)
         && (from.None? || Box(k)[id].row.created > from.value.created
             || (Box(k)[id].row.created == from.value.created && Below(from.value.id, Box(k)[id].row.id))))
      ensures forall i, j :: 0 <= i < j < |page.all| ==>
        || page.all[i].created < page.all[j].created
        || (page.all[i].created == page.all[j].created && Below(page.all[i].id, page.all[j].id))
      ensures |items| <= limit && TotalCost(page.all[..|items|]) <= BUDGET
      ensures |items| < limit && |items| < |page.all| ==> TotalCost(page.all[..|items| + 1]) > BUDGET
      ensures forall i :: 0 <= i < |items| ==>
        items[i].id == page.all[i].id && Base64Url.Decode(items[i].sealed) == Some(page.all[i].sealed)
      ensures items == [] ==> cursor == if from.Some? then Some(EncodeCursor(from.value)) else None
      ensures items != [] ==> cursor == Some(EncodeCursor(Cursor(page.all[|items| - 1].created, page.all[|items| - 1].id)))
    {
      hide EncodeCursor, EnvelopeOf, Earlier, After, Ready, TotalCost, Base64Url.Decode, Below;
      var all := Select(Box(k), now, from, {});
      items, cursor := PageFromRows(First(limit, all), from);
      page := Peek(Box(k), now, limit, all, |items|);
      BoxOf(counts, boxes, maxRequests, k);
      FoundIs(all, Box(k), now, from, {});
      PageStops(page, from);
      OrderIs(all);
    }

    /** `ack_messages`. */
    method AckMessages(k: Key, ids: seq<Id>) returns (acked: nat, missing: seq<Id>, ghost at: seq<nat>)
      requires Valid()
      modifies this
      ensures Valid()
      ensures forall id :: id in Box(k) <==> id in old(Box(k)) && id !in ids
      ensures forall id :: id in Box(k) ==> Box(k)[id] == old(Box(k))[id]
      ensures acked == |old(Box(k))| - |Box(k)|
      ensures forall other :: other != k ==> Box(other) == old(Box(other))
      ensures |missing| == |at| && forall j :: 0 <= j < |at| ==> at[j] < |ids| && missing[j] == ids[at[j]]
      ensures forall i, j :: 0 <= i < j < |at| ==> at[i] < at[j]
      ensures forall i: nat :: i < |ids| ==> (i in at <==> ids[i] !in old(Box(k)))
    {
      hide Consistent, Keyed, Remove;
      BoxOf(counts, boxes, maxRequests, k);
      var box := Box(k);
      var rows := Returning(box, ids);
      AckCount(box, ids, rows);
      var newCounts := counts;
      if |rows| > 0 && k in counts {
        newCounts := counts[k := if counts[k] - |rows| > 0 then counts[k] - |rows| else 0];
      }
      OneBoxChanges(counts, boxes, maxRequests, k, Remove(box, ids), newCounts);
      counts, boxes := newCounts, boxes[k := Remove(box, ids)];
      acked, missing, at := BatchResult(ids, rows);
      DistinctCount(rows);
      RemovedIs(box, ids);
    }

    /** `release_messages`. */
    method ReleaseMessages(k: Key, ids: seq<Id>) returns (released: nat, missing: seq<Id>, ghost at: seq<nat>)
      requires Valid()
      modifies this
      ensures Valid() && counts == old(counts)
      ensures Box(k).Keys == old(Box(k)).Keys
      ensures forall id :: id in Box(k) ==>
        Box(k)[id] == if id in ids then Stored(old(Box(k))[id].row, None) else old(Box(k))[id]
      ensures forall other :: other != k ==> Box(other) == old(Box(other))
      ensures released == |set id | id in ids && id in old(Box(k))|
      ensures |missing| == |at| && forall j :: 0 <= j < |at| ==> at[j] < |ids| && missing[j] == ids[at[j]]
      ensures forall i, j :: 0 <= i < j < |at| ==> at[i] < at[j]
      ensures forall i: nat :: i < |ids| ==> (i in at <==> ids[i] !in old(Box(k)))
    {
      hide Consistent, Keyed, Unlease;
      BoxOf(counts, boxes, maxRequests, k);
      var box := Box(k);
      var rows := Returning(box, ids);
      LeaseKeeps(box, ids, None);
      OneBoxChanges(counts, boxes, maxRequests, k, Unlease(box, ids), counts);
      boxes := boxes[k := Unlease(box, ids)];
      released, missing, at := BatchResult(ids, rows);
      UnleasedIs(box, ids);
      assert (set id | id in rows) == (set id | id in ids && id in box);
    }
  }

  lemma LeaseKeeps(box: Table, ids: seq<Id>, lease: Option<Time>)
    requires Keyed(box)
    ensures lease.Some? ==> Keyed(Lease(box, ids, lease.value)) && |Lease(box, ids, lease.value)| == |box|
    ensures lease.None? ==> Keyed(Unlease(box, ids)) && |Unlease(box, ids)| == |box|
  {
    if lease.Some? {
      assert Lease(box, ids, lease.value).Keys == box.Keys;
    } else {
      assert Unlease(box, ids).Keys == box.Keys;
    }
  }

  lemma RemovedIs(box: Table, ids: seq<Id>)
    ensures forall id :: id in Remove(box, ids) <==> id in box && id !in ids
    ensures forall id :: id in Remove(box, ids) ==> Remove(box, ids)[id] == box[id]
  {
  }

  lemma UnleasedIs(box: Table, ids: seq<Id>)
    ensures Unlease(box, ids).Keys == box.Keys
    ensures forall id :: id in box ==> Unlease(box, ids)[id] == if id in ids then Stored(box[id].row, None) else box[id]
  {
  }

  /** An acknowledgement removes as many messages as its `DELETE` returns rows. */
  lemma AckCount(box: Table, ids: seq<Id>, rows: seq<Id>)
    requires Keyed(box)
    requires forall id :: id in rows <==> id in ids && id in box
    requires forall i, j :: 0 <= i < j < |rows| ==> rows[i] != rows[j]
    ensures Keyed(Remove(box, ids)) && |Remove(box, ids)| == |box| - |rows|
  {
    DistinctCount(rows);
    var gone := set id | id in rows;
    assert Remove(box, ids).Keys == box.Keys - gone;
    assert gone <= box.Keys;
  }
}
