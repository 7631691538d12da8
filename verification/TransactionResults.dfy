/** What the invariant of the transactions means: the counters agree with the
    messages, an enqueue is all or nothing, and nobody waits in a circle. */
module TransactionResults {
  import opened StringOrder
  import opened Transactions
  import opened TransactionProof

  lemma CountersAgree(states: seq<State>, steps: seq<Step>, i: nat, k: Key)
    requires Run(states, steps) && i < |states|
    ensures Base(states[i], k) == |Inbox(states[i].stored, k)| <= states[i].maxRequests
  {
    hide Good, Apart;
    RunKeepsInvariant(states, steps, i);
    assert Counted(states[i]);
    if k !in states[i].counts { assert Inbox(states[i].stored, k) == {}; }
  }

  /** `GREATEST(count - n, 0)` is `count - n` whenever it is computed, and the counter
      that it is computed on is there. */
  lemma ClampNeverActs(states: seq<State>, steps: seq<Step>, i: nat, t: Tx)
    requires Run(states, steps) && i < |states|
    requires t in states[i].open && states[i].open[t].AnAck? && states[i].open[t].a.stage == Adjust
    ensures var s, a := states[i], states[i].open[t].a;
      a.key in s.counts && Clamped(Counter(s, a.pending, a.key), |a.gone|) == s.counts[a.key] - |a.gone|
  {
    RunKeepsInvariant(states, steps, i);
    assert Good(states[i], states[i].open[t]);
    AckStatementKeepsGood(states[i], states[i].open[t].a);
  }

  /** The commit of an enqueue gives every recipient one message that it did not have. */
  ghost predicate ReachesAll(s: State, e: Enqueue, s': State) {
    && (forall r :: r in s'.stored <==> r in s.stored || (r.0 in e.to && r.1 == e.id))
    && (forall k :: k in e.to ==> (k, e.id) !in s.stored && Base(s', k) == Base(s, k) + 1)
    && (forall k :: k !in e.to ==> Base(s', k) == Base(s, k))
  }

  /** The commit of an acknowledgement removes what its `DELETE` took. */
  ghost predicate RemovesGone(s: State, a: Ack, s': State) {
    && (forall r :: r in s'.stored <==> r in s.stored && !(r.0 == a.key && r.1 in a.gone))
    && (forall k :: k != a.key ==> Base(s', k) == Base(s, k))
    && Base(s', a.key) == Base(s, a.key) - |a.gone|
  }

  lemma CommitReachesAll(s: State, e: Enqueue)
    requires Counted(s) && GoodEnqueue(s, e) && e.stage.Ready?
    ensures ReachesAll(s, e, Committed(s, AnEnqueue(e)))
  {
    var s' := Committed(s, AnEnqueue(e));
    hide GoodEnqueue, Counted;
    EnqueueCommitCounts(s, e);
    AtTheEnd(s, e);
    forall r ensures r in s'.stored <==> r in s.stored || (r.0 in e.to && r.1 == e.id) {
      assert r in EnqueuedRows(e) <==> r.0 in e.to && r.1 == e.id;
    }
  }

  lemma CommitRemovesGone(s: State, a: Ack)
    requires Counted(s) && GoodAck(s, a) && a.stage == Done
    ensures RemovesGone(s, a, Committed(s, AnAck(a)))
  {
    var s' := Committed(s, AnAck(a));
    AckCommitCounts(s, a);
    forall r ensures r in s'.stored <==> r in s.stored && !(r.0 == a.key && r.1 in a.gone) {
      assert r in AckedRows(a) <==> r.0 == a.key && r.1 in a.gone;
    }
  }

  /** A commit does all of its work, and no other step of a run changes a message
      or a counter. */
  lemma AllOrNothing(states: seq<State>, steps: seq<Step>, i: nat)
    requires Run(states, steps) && i < |steps|
    ensures var s, s' := states[i], states[i + 1];
      match steps[i]
      case Commit(t) =>
        (match s.open[t]
         case AnEnqueue(e) => ReachesAll(s, e, s')
         case AnAck(a) => RemovesGone(s, a, s')
         case AMarking(_) => s'.stored == s.stored && s'.counts == s.counts)
      case _ => s'.stored == s.stored && s'.counts == s.counts
  {
    hide ReachesAll, RemovesGone, Good, Apart, Counted, Blocked, EnqueueStatement, AckStatement;
    var s, s' := states[i], states[i + 1];
    RunKeepsInvariant(states, steps, i);
    if steps[i].Commit? {
      assert Good(s, s.open[steps[i].t]);
      CommitDoesAll(s, s.open[steps[i].t], s');
    }
  }

  lemma CommitDoesAll(s: State, x: Txn, s': State)
    requires Counted(s) && Good(s, x) && Finished(x) && s' == Committed(s, x).(open := s'.open)
    ensures match x
            case AnEnqueue(e) => ReachesAll(s, e, s')
            case AnAck(a) => RemovesGone(s, a, s')
            case AMarking(_) => s'.stored == s.stored && s'.counts == s.counts
  {
    hide Counted, GoodEnqueue, GoodAck;
    match x
    case AnEnqueue(e) => CommitReachesAll(s, e);
    case AnAck(a) => CommitRemovesGone(s, a);
    case AMarking(_) =>
  }

  /** A ranking of the messages of every inbox; ranks compare as strings do.  Ids rank
      themselves, and so do positions in a table, written as numbers of one length. */
  type Ranking = (Key, Id) -> string

  /** Where a transaction may be waiting: the pass, and the key or the rank it is at. */
  datatype Place = Place(pass: nat, key: string)

  function PlaceOf(x: Txn, rank: Ranking): Place {
    match x
    case AnEnqueue(e) =>
      if e.stage.Ensure? && e.stage.i < |e.keys| then Place(0, e.keys[e.stage.i])
      else if e.stage.Ensure? then Place(1, "")
      else if e.stage.Lock? && e.stage.i < |e.keys| then Place(1, e.keys[e.stage.i])
      else Place(2, "")
    case AnAck(a) =>
      if a.stage == Adjust then Place(1, a.key)
      else if a.stage == Done then Place(2, "")
      else if a.stage.i < |a.ids| then Place(0, rank(a.key, a.ids[a.stage.i]))
      else Place(1, "")
    case AMarking(m) => if m.waits && m.i < |m.ids| then Place(0, rank(m.key, m.ids[m.i])) else Place(2, "")
  }

  predicate Before(p: Place, q: Place) {
    p.pass < q.pass || (p.pass == q.pass && Below(p.key, q.key))
  }

  /** A transaction waits only for transactions that are at a later place: the second
      pass is entered with every counter row made and none locked, both passes go
      upwards, and an acknowledgement locks no second row. */
  lemma WaitsForLater(s: State, t: Tx, k: Key, u: Tx, rank: Ranking)
    requires WaitsFor(s, t, k, u) && Good(s, s.open[t]) && Good(s, s.open[u]) && Apart(s.open[t], s.open[u])
    ensures Before(PlaceOf(s.open[t], rank), PlaceOf(s.open[u], rank))
  {
    hide Good, Apart;
    var x, y := s.open[t], s.open[u];
    if x.AnEnqueue? && x.e.stage.Ensure? {
      MakerIsLater(s, y, k, rank);
    } else {
      HolderIsLater(s, y, k, rank);
    }
  }

  lemma MakerIsLater(s: State, y: Txn, k: Key, rank: Ranking)
    requires Good(s, y) && k in Made(y)
    ensures Before(Place(0, k), PlaceOf(y, rank))
  {
    if y.e.stage.Ensure? { PassedKeyIsBelow(y.e, y.e.stage.i, k); }
  }

  lemma HolderIsLater(s: State, y: Txn, k: Key, rank: Ranking)
    requires Good(s, y) && k in Held(y)
    ensures Before(Place(1, k), PlaceOf(y, rank))
  {
    if y.AnEnqueue? && y.e.stage.Lock? { PassedKeyIsBelow(y.e, y.e.stage.i, k); }
  }

  lemma PassedKeyIsBelow(f: Enqueue, n: nat, k: Key)
    requires Ascending(f.keys) && n <= |f.keys| && k in f.keys[..n]
    ensures n < |f.keys| ==> Below(k, f.keys[n])
  {
    var j :| 0 <= j < n && f.keys[j] == k;
  }

  /** The ids come in the order of the ranking. */
  ghost predicate Climbs(rank: Ranking, k: Key, ids: seq<Id>) {
    forall i, j :: 0 <= i < j < |ids| ==> Below(rank(k, ids[i]), rank(k, ids[j]))
  }

  /** All statements that wait for messages visit them in one common order. */
  ghost predicate Orderly(s: State, rank: Ranking) {
    && (forall t :: t in s.open && s.open[t].AnAck? ==> Climbs(rank, s.open[t].a.key, s.open[t].a.ids))
    && (forall t :: t in s.open && s.open[t].AMarking? && s.open[t].m.waits ==> Climbs(rank, s.open[t].m.key, s.open[t].m.ids))
  }

  /** Then a wait for a message, too, is for a transaction at a later place. */
  lemma WaitsForLaterRow(s: State, t: Tx, id: Id, u: Tx, rank: Ranking)
    requires WaitsForRow(s, t, id, u) && Good(s, s.open[u]) && Orderly(s, rank)
    ensures Before(PlaceOf(s.open[t], rank), PlaceOf(s.open[u], rank))
  {
    hide GoodEnqueue;
    match s.open[u]
    case AnEnqueue(_) =>
    case AnAck(b) => if b.stage.Delete? { PassedRankIsBelow(rank, b.key, b.ids, b.stage.i, id); }
    case AMarking(m) => if m.waits { PassedRankIsBelow(rank, m.key, m.ids, m.i, id); }
  }

  lemma PassedRankIsBelow(rank: Ranking, k: Key, ids: seq<Id>, n: nat, id: Id)
    requires Climbs(rank, k, ids) && n <= |ids| && id in ids[..n]
    ensures n < |ids| ==> Below(rank(k, id), rank(k, ids[n]))
  {
    var j :| 0 <= j < n && ids[j] == id;
  }

  lemma BeforeTransitive(p: Place, q: Place, r: Place)
    requires Before(p, q) && Before(q, r)
    ensures Before(p, r)
  {
    if p.pass == q.pass == r.pass { BelowTransitive(p.key, q.key, r.key); }
  }

  /** `t` waits for `u` over a counter row or, if `rows`, over a message. */
  ghost predicate Waits(s: State, t: Tx, u: Tx, rows: bool) {
    (exists k :: WaitsFor(s, t, k, u)) || (rows && exists id :: WaitsForRow(s, t, id, u))
  }

  lemma WaitAdvances(s: State, t: Tx, u: Tx, rows: bool, rank: Ranking)
    requires Waits(s, t, u, rows) && (rows ==> Orderly(s, rank))
    requires t in s.open && u in s.open ==> Good(s, s.open[t]) && Good(s, s.open[u]) && (t != u ==> Apart(s.open[t], s.open[u]))
    ensures t in s.open && u in s.open && Before(PlaceOf(s.open[t], rank), PlaceOf(s.open[u], rank))
  {
    hide Good, Apart, PlaceOf, Orderly;
    if k :| WaitsFor(s, t, k, u) {
      WaitsForLater(s, t, k, u, rank);
    } else {
      var id :| WaitsForRow(s, t, id, u);
      WaitsForLaterRow(s, t, id, u, rank);
    }
  }

  lemma {:induction false} ChainAdvances(s: State, chain: seq<Tx>, rows: bool, rank: Ranking)
    requires Invariant(s) && (rows ==> Orderly(s, rank)) && |chain| >= 2
    requires forall i :: 0 <= i < |chain| - 1 ==> Waits(s, chain[i], chain[i + 1], rows)
    ensures chain[0] in s.open && chain[|chain| - 1] in s.open
    ensures Before(PlaceOf(s.open[chain[0]], rank), PlaceOf(s.open[chain[|chain| - 1]], rank))
  {
    hide Counted, Good, Apart, PlaceOf, Waits, Orderly;
    var n := |chain| - 2;
    WaitAdvances(s, chain[n], chain[n + 1], rows, rank);
    if n > 0 {
      var shorter := chain[..n + 1];
      assert forall i :: 0 <= i < |shorter| - 1 ==> Waits(s, shorter[i], shorter[i + 1], rows);
      ChainAdvances(s, shorter, rows, rank);
      BeforeTransitive(PlaceOf(s.open[chain[0]], rank), PlaceOf(s.open[chain[n]], rank), PlaceOf(s.open[chain[n + 1]], rank));
    }
  }

  /** No run ever has a circular wait over the counter rows; nor over counter rows and
      messages together, in any state whose statements visit their messages in one common
      order. */
  lemma NoCircularWait(states: seq<State>, steps: seq<Step>, i: nat, chain: seq<Tx>, rows: bool, rank: Ranking)
    requires Run(states, steps) && i < |states| && |chain| >= 2
    requires rows ==> Orderly(states[i], rank)
    requires forall j :: 0 <= j < |chain| - 1 ==> Waits(states[i], chain[j], chain[j + 1], rows)
    ensures chain[0] != chain[|chain| - 1]
  {
    hide Invariant;
    RunKeepsInvariant(states, steps, i);
    ChainAdvances(states[i], chain, rows, rank);
    BelowIrreflexive(PlaceOf(states[i].open[chain[0]], rank).key);
  }

  /** Among finitely many transactions one is at a place that none is beyond. */
  lemma {:induction false} SomeLast(s: State, ts: set<Tx>, rank: Ranking) returns (last: Tx)
    requires ts != {} && ts <= s.open.Keys
    ensures last in ts && forall u :: u in ts ==> !Before(PlaceOf(s.open[last], rank), PlaceOf(s.open[u], rank))
    decreases ts
  {
    hide PlaceOf, Below;
    var t :| t in ts;
    BelowIrreflexive(PlaceOf(s.open[t], rank).key);
    last := t;
    if ts != {t} {
      var l := SomeLast(s, ts - {t}, rank);
      if !Before(PlaceOf(s.open[l], rank), PlaceOf(s.open[t], rank)) {
        last := l;
      } else {
        forall u | u in ts - {t} ensures !Before(PlaceOf(s.open[t], rank), PlaceOf(s.open[u], rank)) {
          if Before(PlaceOf(s.open[t], rank), PlaceOf(s.open[u], rank)) {
            BeforeTransitive(PlaceOf(s.open[l], rank), PlaceOf(s.open[t], rank), PlaceOf(s.open[u], rank));
          }
        }
        assert ts == (ts - {t}) + {t};
      }
    }
  }

  /** As long as a transaction is open, some open transaction waits for no counter row,
      and under the same condition for no message either: it can go on. */
  lemma SomeoneMoves(states: seq<State>, steps: seq<Step>, i: nat, rank: Ranking) returns (t: Tx)
    requires Run(states, steps) && i < |states| && states[i].open != map[]
    ensures t in states[i].open && forall k, u :: !WaitsFor(states[i], t, k, u)
    ensures Orderly(states[i], rank) ==> !Blocked(states[i], t)
  {
    hide Counted, Good, Apart, PlaceOf, Orderly;
    var s := states[i];
    RunKeepsInvariant(states, steps, i);
    t := SomeLast(s, s.open.Keys, rank);
    forall k, u ensures !WaitsFor(s, t, k, u) {
      if WaitsFor(s, t, k, u) {
        assert Waits(s, t, u, false);
        WaitAdvances(s, t, u, false, rank);
      }
    }
    if Orderly(s, rank) {
      forall id, u ensures !WaitsForRow(s, t, id, u) {
        if WaitsForRow(s, t, id, u) {
          assert Waits(s, t, u, true);
          WaitAdvances(s, t, u, true, rank);
        }
      }
    }
  }
}
