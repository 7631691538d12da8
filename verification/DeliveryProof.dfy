/** What every run of the inbox keeps. */
module DeliveryProof {
  import opened Wrappers
  import opened InboxRows
  import opened InboxTable
  import opened Claims
  import opened Paging
  import opened Delivery

  // ---- the history ---------------------------------------------------------

  lemma {:induction false} LeaseAfterClaim(history: seq<Event>, rows: seq<Row>, start: Time, id: Id)
    ensures LastLease(history + ClaimEvents(rows, start), id) ==
            if id in Ids(rows) then Some(start + RECOVERY) else LastLease(history, id)
    decreases |rows|
  {
    if rows == [] {
      assert history + ClaimEvents(rows, start) == history;
    } else {
      var n := |rows| - 1;
      var h := history + ClaimEvents(rows, start);
      assert h[..|h| - 1] == history + ClaimEvents(rows[..n], start);
      assert Ids(rows) == Ids(rows[..n]) + [rows[n].id];
      LeaseAfterClaim(history, rows[..n], start, id);
    }
  }

  lemma {:induction false} LeaseAfterRelease(history: seq<Event>, table: Table, ids: seq<Id>, id: Id)
    ensures LastLease(history + ReleaseEvents(table, ids), id) ==
            if id in ids && id in table then None else LastLease(history, id)
    decreases |ids|
  {
    if ids == [] {
      assert history + [] == history;
    } else {
      var n := |ids| - 1;
      var before := history + ReleaseEvents(table, ids[..n]);
      LeaseAfterRelease(history, table, ids[..n], id);
      LastRelease(history, table, ids);
      assert ids == ids[..n] + [ids[n]];
      if ids[n] in table { LeaseAfterEvent(before, Released(ids[n]), id); }
    }
  }

  lemma LastRelease(history: seq<Event>, table: Table, ids: seq<Id>)
    requires ids != []
    ensures var n := |ids| - 1;
      history + ReleaseEvents(table, ids) ==
        if ids[n] in table then history + ReleaseEvents(table, ids[..n]) + [Released(ids[n])] else history + ReleaseEvents(table, ids[..n])
  {
  }

  lemma LeaseAfterEvent(history: seq<Event>, e: Event, id: Id)
    ensures LastLease(history + [e], id) ==
            if e.id != id then LastLease(history, id) else if e.Claimed? then Some(e.start + RECOVERY) else None
  {
    var h := history + [e];
    assert h[..|h| - 1] == history;
  }

  lemma {:induction false} SpacedAfterClaim(history: seq<Event>, rows: seq<Row>, start: Time)
    requires Spaced(history) && DistinctIds(rows)
    requires forall r :: r in rows ==> Free(LastLease(history, r.id), start)
    ensures Spaced(history + ClaimEvents(rows, start))
    decreases |rows|
  {
    hide LastLease;
    if rows == [] {
      assert history + ClaimEvents(rows, start) == history;
    } else {
      var n := |rows| - 1;
      SpacedAfterClaim(history, rows[..n], start);
      LeaseAfterClaim(history, rows[..n], start, rows[n].id);
      assert rows[n] in rows;
      SpacedAppend(history + ClaimEvents(rows[..n], start), Claimed(rows[n].id, start));
      assert ClaimEvents(rows, start) == ClaimEvents(rows[..n], start) + [Claimed(rows[n].id, start)];
      assert history + ClaimEvents(rows, start) == history + ClaimEvents(rows[..n], start) + [Claimed(rows[n].id, start)];
    }
  }

  lemma SpacedAppend(history: seq<Event>, e: Event)
    requires Spaced(history)
    requires e.Claimed? ==> Free(LastLease(history, e.id), e.start)
    ensures Spaced(history + [e])
  {
    hide LastLease, Free;
    var h := history + [e];
    forall j | 0 <= j < |h| && h[j].Claimed?
      ensures Free(LastLease(h[..j], h[j].id), h[j].start)
    {
      assert h[..j] == history[..j];
      assert history[..|history|] == history;
    }
  }

  lemma {:induction false} SpacedAfterRelease(history: seq<Event>, table: Table, ids: seq<Id>)
    requires Spaced(history)
    ensures Spaced(history + ReleaseEvents(table, ids))
    decreases |ids|
  {
    hide LastLease, Spaced;
    if ids == [] {
      assert history + [] == history;
    } else {
      var n := |ids| - 1;
      SpacedAfterRelease(history, table, ids[..n]);
      LastRelease(history, table, ids);
      if ids[n] in table { SpacedAppend(history + ReleaseEvents(table, ids[..n]), Released(ids[n])); }
    }
  }

  // ---- one step ------------------------------------------------------------

  /** A worker is as good after a step that leaves the rows it has locked alone. */
  lemma SparesWorker(s: State, s': State, a: Activity)
    requires GoodWorker(s, a) && s.used <= s'.used && s.forwarded <= s'.forwarded
    requires forall id :: id in s.used && id in s'.table ==> id in s.table && s'.table[id].row == s.table[id].row
    requires a.Scanning? ==> forall id :: id in Ids(a.held) && id in s.table ==> id in s'.table && s'.table[id] == s.table[id]
    ensures GoodWorker(s', a)
  {
    hide Earlier;
    if a.Scanning? {
      forall r | r in a.held ensures r.id in s'.table && Ready(s'.table[r.id], a.start) {
        var i :| 0 <= i < |a.held| && a.held[i] == r;
        assert Ids(a.held)[i] == r.id;
      }
    }
  }

  /** The invariant after a step that changes one worker and not the table. */
  lemma WorkerMoves(s: State, w: Worker, a: Activity, s': State)
    requires Invariant(s)
    requires s' == SetWorker(s, w, a).(calls := s'.calls, forwarded := s'.forwarded) && s.forwarded <= s'.forwarded
    requires GoodWorker(s', a)
    requires a.Scanning? ==> forall v, id :: v != w && id in Ids(a.held) ==> !LockedBy(s, v, id)
    ensures Invariant(s')
  {
    hide TableAgrees, Spaced;
    forall v | v in s'.workers ensures GoodWorker(s', s'.workers[v]) {
      if v != w { SparesWorker(s, s', s.workers[v]); }
    }
    forall u, v, id | LockedBy(s', u, id) && LockedBy(s', v, id) ensures u == v {
      if u != w { assert LockedBy(s, u, id); }
      if v != w { assert LockedBy(s, v, id); }
    }
    SameAgreement(s, s');
  }

  lemma SameAgreement(s: State, s': State)
    requires TableAgrees(s) && s'.table == s.table && s'.used == s.used && s'.history == s.history
    ensures TableAgrees(s')
  {
  }

  lemma SnapshotKeeps(s: State, w: Worker, found: seq<Row>, s': State)
    requires Invariant(s) && Next(s, Snapshot(w, found), s')
    ensures Invariant(s')
  {
    hide LastLease, Earlier, Spaced;
    var a := s'.workers[w];
    forall r | r in found ensures r.id in s.used && (r.id in s.table ==> s.table[r.id].row == r) {
      assert Matches(s.table, a.start, None, r);
    }
    WorkerMoves(s, w, a, s');
  }

  lemma ScanKeeps(s: State, w: Worker, locked: bool, s': State)
    requires Invariant(s) && Next(s, Scan(w, locked), s')
    ensures Invariant(s')
  {
    hide TableAgrees, Spaced;
    var a, a' := s.workers[w], s'.workers[w];
    ScanClaim(s, a, a');
    var r := a.found[a.next];
    assert Ids(a'.held) == Ids(a.held) || (!locked && Ids(a'.held) == Ids(a.held) + [r.id]);
    forall v, id | v != w && id in Ids(a'.held) ensures !LockedBy(s, v, id) {
      assert id in Ids(a.held) ==> LockedBy(s, w, id);
    }
    assert GoodWorker(s', a') by { SparesWorker(s, s', a'); }
    WorkerMoves(s, w, a', s');
  }

  lemma ScanClaim(s: State, a: Activity, a': Activity)
    requires a.Scanning? && GoodClaim(s, a) && a.next < |a.found| && |a.held| < a.limit
    requires a'.Scanning? && a' == a.(next := a.next + 1, held := a'.held)
    requires a'.held == a.held || (a'.held == a.held + [a.found[a.next]] && a.found[a.next].id in s.table
                                   && Ready(s.table[a.found[a.next].id], a.start))
    ensures GoodClaim(s, a')
  {
    hide Earlier, Ready;
    assert a.found[..a.next + 1] == a.found[..a.next] + [a.found[a.next]];
    forall i, j | 0 <= i < j < |a'.held| ensures Earlier(a'.held[i], a'.held[j]) {
      if j == |a.held| {
        assert a.held[i] in a.found[..a.next];
        var k :| 0 <= k < a.next && a.found[k] == a.held[i];
      }
    }
  }

  /** Different locked rows are different messages. */
  lemma HeldAreDistinct(s: State, a: Activity)
    requires a.Scanning? && GoodClaim(s, a)
    ensures DistinctIds(a.held)
    ensures forall r :: r in a.held ==> r.id in s.table && s.table[r.id].row == r && Ready(s.table[r.id], a.start)
  {
    hide Ready, Earlier;
    forall r | r in a.held ensures s.table[r.id].row == r {
      assert r in a.found[..a.next];
      assert r in a.found;
    }
    forall i, j | 0 <= i < j < |a.held| ensures a.held[i].id != a.held[j].id {
      EarlierIrreflexive(a.held[i], a.held[j]);
      assert a.held[i] in a.held && a.held[j] in a.held;
    }
  }

  lemma ClaimKeeps(s: State, w: Worker, rows: seq<Row>, n: nat, s': State)
    requires Invariant(s) && Next(s, ClaimCommit(w, rows, n), s')
    ensures Invariant(s')
  {
    hide Chosen, Earlier, LastLease, Fits, TableAgrees, Spaced, InOrder, TotalCost;
    var a := s.workers[w];
    var chosen := Chosen(a.held);
    HeldAreDistinct(s, a);
    PrefixChosen(a.held);
    ClaimTables(s, a, chosen, s');
    ClaimedRowsWereLocked(s, w, chosen);
    OthersRowsStay(s, w, chosen, a.start + RECOVERY, s');
    assert GoodWorker(s', s'.workers[w]);
    OthersSpared(s, w, s');
  }

  /** The leases are on rows that no other worker has locked. */
  lemma OthersRowsStay(s: State, w: Worker, chosen: seq<Row>, until: Time, s': State)
    requires Exclusive(s) && w in s.workers && s'.table == Lease(s.table, Ids(chosen), until)
    requires forall id :: id in Ids(chosen) ==> LockedBy(s, w, id)
    requires w in s'.workers && !s'.workers[w].Scanning?
    requires forall v :: v != w ==> (v in s'.workers <==> v in s.workers) && (v in s.workers ==> s'.workers[v] == s.workers[v])
    ensures forall v, id :: LockedBy(s', v, id) && id in s.table ==> id in s'.table && s'.table[id] == s.table[id]
  {
    forall v, id | LockedBy(s', v, id) && id in s.table ensures id in s'.table && s'.table[id] == s.table[id] {
      assert LockedBy(s, v, id);
    }
  }

  lemma ClaimedRowsWereLocked(s: State, w: Worker, chosen: seq<Row>)
    requires w in s.workers && s.workers[w].Scanning? && chosen <= s.workers[w].held
    ensures forall id :: id in Ids(chosen) ==> LockedBy(s, w, id)
  {
    forall id | id in Ids(chosen) ensures LockedBy(s, w, id) {
      var i :| 0 <= i < |chosen| && chosen[i].id == id;
      assert Ids(s.workers[w].held)[i] == id;
    }
  }

  lemma ClaimTables(s: State, a: Activity, chosen: seq<Row>, s': State)
    requires TableAgrees(s) && Spaced(s.history)
    requires a.Scanning? && GoodClaim(s, a) && DistinctIds(a.held) && chosen <= a.held
    requires s'.used == s.used && s'.table == Lease(s.table, Ids(chosen), a.start + RECOVERY)
    requires s'.history == s.history + ClaimEvents(chosen, a.start)
    ensures TableAgrees(s') && Spaced(s'.history)
  {
    hide Earlier, LastLease;
    forall r | r in chosen ensures r in a.held && Free(LastLease(s.history, r.id), a.start) {}
    SpacedAfterClaim(s.history, chosen, a.start);
    forall id ensures LastLease(s'.history, id) == if id in Ids(chosen) then Some(a.start + RECOVERY) else LastLease(s.history, id) {
      LeaseAfterClaim(s.history, chosen, a.start, id);
    }
    ClaimAgrees(s, chosen, a.start + RECOVERY, s');
  }

  lemma ClaimAgrees(s: State, chosen: seq<Row>, until: Time, s': State)
    requires TableAgrees(s) && s'.used == s.used && s'.table == Lease(s.table, Ids(chosen), until)
    requires forall id :: LastLease(s'.history, id) == if id in Ids(chosen) then Some(until) else LastLease(s.history, id)
    requires forall r :: r in chosen ==> r.id in s.table
    ensures TableAgrees(s')
  {
    hide LastLease;
    forall id | id in Ids(chosen) ensures id in s.table {
      var i :| 0 <= i < |chosen| && chosen[i].id == id;
      assert chosen[i] in chosen;
    }
  }

  /** The other workers, after a step that touches only rows that none of them has
      locked. */
  lemma OthersSpared(s: State, w: Worker, s': State)
    requires Invariant(s) && s'.used == s.used && s'.forwarded == s.forwarded
    requires TableAgrees(s') && Spaced(s'.history)
    requires s'.workers.Keys == s.workers.Keys && forall v :: v in s.workers && v != w ==> s'.workers[v] == s.workers[v]
    requires w in s.workers ==> s'.workers[w] == s.workers[w] || (!s'.workers[w].Scanning? && GoodWorker(s', s'.workers[w]))
    requires forall id :: id in s'.table ==> id in s.table && s'.table[id].row == s.table[id].row
    requires forall v, id :: LockedBy(s', v, id) && id in s.table ==> id in s'.table && s'.table[id] == s.table[id]
    ensures Invariant(s')
  {
    hide TableAgrees, Spaced;
    forall v | v in s'.workers ensures GoodWorker(s', s'.workers[v]) {
      if s'.workers[v] == s.workers[v] {
        if s.workers[v].Scanning? {
          forall id | id in Ids(s.workers[v].held) && id in s.table ensures id in s'.table && s'.table[id] == s.table[id] {
            assert LockedBy(s', v, id);
          }
        }
        SparesWorker(s, s', s.workers[v]);
      }
    }
    forall u, v, id | LockedBy(s', u, id) && LockedBy(s', v, id) ensures u == v {
      assert LockedBy(s, u, id) && LockedBy(s, v, id);
    }
  }

  lemma CarryKeeps(s: State, call: Call, s': State)
    requires Invariant(s) && Next(s, Carry(call), s')
    ensures Invariant(s')
  {
    hide LastLease, Spaced;
    match call {
      case AckCall(ids) =>
      case ReleaseCall(ids) =>
        SpacedAfterRelease(s.history, s.table, ids);
        forall id ensures LastLease(s'.history, id) == if id in ids && id in s.table then None else LastLease(s.history, id) {
          LeaseAfterRelease(s.history, s.table, ids, id);
        }
    }
    assert TableAgrees(s');
    forall v, id | LockedBy(s', v, id) && id in s.table ensures id in s'.table && s'.table[id] == s.table[id] {
      assert LockedBy(s, v, id);
    }
    if w :| w in s.workers { OthersSpared(s, w, s'); } else { NobodyThere(s, s'); }
  }

  lemma NobodyThere(s: State, s': State)
    requires TableAgrees(s') && Spaced(s'.history) && s'.workers == map[]
    ensures Invariant(s')
  {
  }

  lemma EnqueueKeeps(s: State, row: Row, s': State)
    requires Invariant(s) && Next(s, Enqueued(row), s')
    ensures Invariant(s')
  {
    hide LastLease, Spaced;
    forall v | v in s'.workers ensures GoodWorker(s', s'.workers[v]) {
      SparesWorker(s, s', s.workers[v]);
    }
    forall u, v, id | LockedBy(s', u, id) && LockedBy(s', v, id) ensures u == v {
      assert LockedBy(s, u, id) && LockedBy(s, v, id);
    }
  }

  lemma ForwardKeeps(s: State, w: Worker, s': State)
    requires Invariant(s) && Next(s, Forward(w), s')
    ensures Invariant(s')
  {
    hide TableAgrees, Spaced;
    assert GoodWorker(s, s.workers[w]);
    WorkerMoves(s, w, s'.workers[w], s');
  }

  lemma QuietStepKeeps(s: State, s': State)
    requires Invariant(s) && s' == s.(now := s'.now, calls := s'.calls)
    ensures Invariant(s')
  {
    hide TableAgrees, Spaced;
    SameAgreement(s, s');
    forall v | v in s'.workers ensures GoodWorker(s', s'.workers[v]) {
      SparesWorker(s, s', s.workers[v]);
    }
    forall u, v, id | LockedBy(s', u, id) && LockedBy(s', v, id) ensures u == v {
      assert LockedBy(s, u, id) && LockedBy(s, v, id);
    }
  }

  lemma NextKeepsInvariant(s: State, step: Step, s': State)
    requires Invariant(s) && Next(s, step, s')
    ensures Invariant(s')
  {
    hide Invariant, LockedBy;
    match step
    case Enqueued(row) => EnqueueKeeps(s, row, s');
    case Begin(w, limit) => WorkerMoves(s, w, s'.workers[w], s');
    case Snapshot(w, found) => SnapshotKeeps(s, w, found, s');
    case Scan(w, locked) => ScanKeeps(s, w, locked, s');
    case ClaimCommit(w, rows, n) => ClaimKeeps(s, w, rows, n, s');
    case Forward(w) => ForwardKeeps(s, w, s');
    case EndBatch(w) => WorkerMoves(s, w, s'.workers[w], s');
    case Crash(w) => WorkerMoves(s, w, s'.workers[w], s');
    case Carry(call) => CarryKeeps(s, call, s');
    case Outside(call) => QuietStepKeeps(s, s');
    case Tick(later) => QuietStepKeeps(s, s');
  }

  lemma {:induction false} RunKeepsInvariant(states: seq<State>, steps: seq<Step>, i: nat)
    requires Run(states, steps) && i < |states|
    ensures Invariant(states[i])
  {
    hide Next;
    if i > 0 {
      RunKeepsInvariant(states, steps, i - 1);
      NextKeepsInvariant(states[i - 1], steps[i - 1], states[i]);
    }
  }
}
