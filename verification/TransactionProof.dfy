/** What every interleaving of enqueues and acknowledgements keeps. */
module TransactionProof {
  import opened MachineInts
  import opened StringOrder
  import opened Recipients
  import opened Transactions

  lemma EnqueueStatementKeepsGood(s: State, e: Enqueue)
    requires Counted(s) && s.maxRequests < USIZE && GoodEnqueue(s, e)
    ensures match EnqueueStatement(s, e)
            case None => e.stage.Lock? && e.stage.i < |e.keys| && Base(s, e.keys[e.stage.i]) >= s.maxRequests
            case Some(e') => GoodEnqueue(s, e')
  {
    match e.stage
    case Ensure(i) =>
      if i < |e.keys| { FirstPass(s, e); } else { assert e.keys[..i] == e.keys; }
    case Lock(i) =>
      if i < |e.keys| { SecondPass(s, e); } else { assert e.keys[..i] == e.keys; }
    case Insert(i) =>
      if i < |e.to| { InsertPass(s, e); } else { assert e.to[..i] == e.to; }
    case Bump(i) =>
      assert e.to[..|e.to|] == e.to;
      if i < |e.to| { BumpPass(s, e); }
    case Ready =>
  }

  lemma FirstPass(s: State, e: Enqueue)
    requires GoodEnqueue(s, e) && e.stage.Ensure? && e.stage.i < |e.keys|
    ensures EnqueueStatement(s, e).Some? && GoodEnqueue(s, EnqueueStatement(s, e).value)
  {
    hide Ascending, Distinct;
    var i, k := e.stage.i, e.keys[e.stage.i];
    assert e.keys[..i + 1] == e.keys[..i] + [k];
    if k in s.counts || k in e.made {
      RowIsThere(s, e);
    } else {
      RowIsMade(s, e);
    }
  }

  lemma RowIsThere(s: State, e: Enqueue)
    requires GoodEnqueue(s, e) && e.stage.Ensure? && e.stage.i < |e.keys|
    requires e.keys[e.stage.i] in s.counts || e.keys[e.stage.i] in e.made
    requires e.keys[..e.stage.i + 1] == e.keys[..e.stage.i] + [e.keys[e.stage.i]]
    ensures GoodEnqueue(s, e.(stage := Ensure(e.stage.i + 1)))
  {
    hide Ascending, Distinct;
  }

  lemma RowIsMade(s: State, e: Enqueue)
    requires GoodEnqueue(s, e) && e.stage.Ensure? && e.stage.i < |e.keys|
    requires e.keys[e.stage.i] !in s.counts && e.keys[e.stage.i] !in e.made
    requires e.keys[..e.stage.i + 1] == e.keys[..e.stage.i] + [e.keys[e.stage.i]]
    ensures var k := e.keys[e.stage.i];
      GoodEnqueue(s, e.(stage := Ensure(e.stage.i + 1), made := e.made + {k}, pending := e.pending[k := 0]))
  {
    hide Ascending, Distinct;
  }

  lemma SecondPass(s: State, e: Enqueue)
    requires Counted(s) && s.maxRequests < USIZE && GoodEnqueue(s, e) && e.stage.Lock? && e.stage.i < |e.keys|
    ensures match EnqueueStatement(s, e)
            case None => Base(s, e.keys[e.stage.i]) >= s.maxRequests
            case Some(e') => GoodEnqueue(s, e')
  {
    var i := e.stage.i;
    assert e.keys[..i + 1] == e.keys[..i] + [e.keys[i]];
    assert Counter(s, e.pending, e.keys[i]) == Base(s, e.keys[i]);
  }

  lemma InsertPass(s: State, e: Enqueue)
    requires GoodEnqueue(s, e) && e.stage.Insert? && e.stage.i < |e.to|
    ensures EnqueueStatement(s, e).Some? && GoodEnqueue(s, EnqueueStatement(s, e).value)
  {
    var i := e.stage.i;
    assert e.to[..i + 1] == e.to[..i] + [e.to[i]];
    assert e.to[i] !in e.to[..i];
  }

  lemma BumpPass(s: State, e: Enqueue)
    requires GoodEnqueue(s, e) && e.stage.Bump? && e.stage.i < |e.to|
    ensures EnqueueStatement(s, e).Some? && GoodEnqueue(s, EnqueueStatement(s, e).value)
  {
    var i := e.stage.i;
    assert e.to[..i + 1] == e.to[..i] + [e.to[i]];
    assert e.to[i] !in e.to[..i] && e.inserted == e.to;
  }

  /** Nothing that a statement adds is shared with another open transaction. */
  lemma StatementKeepsApart(s: State, t: Tx, u: Tx)
    requires t in s.open && u in s.open && t != u && !Blocked(s, t)
    requires Apart(s.open[t], s.open[u])
    ensures s.open[t].AnEnqueue? ==> (var r := EnqueueStatement(s, s.open[t].e);
                                      r.Some? ==> Apart(AnEnqueue(r.value), s.open[u]))
    ensures s.open[t].AnAck? ==> Apart(AnAck(AckStatement(s, s.open[t].a)), s.open[u])
  {
    match s.open[t]
    case AnEnqueue(e) =>
      if (e.stage.Ensure? || e.stage.Lock?) && e.stage.i < |e.keys| {
        assert !WaitsFor(s, t, e.keys[e.stage.i], u);
      }
    case AnAck(a) =>
      assert !WaitsFor(s, t, a.key, u);
      if a.stage.Delete? && a.stage.i < |a.ids| {
        assert !WaitsForRow(s, t, a.ids[a.stage.i], u);
      }
    case AMarking(_) =>
  }

  lemma MarkingKeepsApart(s: State, t: Tx, m: Marking, u: Tx)
    requires t in s.open && s.open[t] == AMarking(m) && m.i < |m.ids| && u in s.open && t != u
    requires Apart(s.open[t], s.open[u])
    ensures Apart(AMarking(MarkingStatement(s, m, Taken(s, t, m.key, m.ids[m.i]))), s.open[u])
  {
    assert LocksRow(s.open[u], m.key, m.ids[m.i]) ==> Taken(s, t, m.key, m.ids[m.i]);
  }

  lemma MarkingKeepsGood(s: State, m: Marking, taken: bool)
    requires GoodMarking(s, m) && m.i < |m.ids|
    ensures GoodMarking(s, MarkingStatement(s, m, taken))
  {
    assert m.ids[..m.i + 1] == m.ids[..m.i] + [m.ids[m.i]];
  }

  /** The messages that an acknowledgement deletes are among those counted. */
  lemma {:induction false} GoneAreCounted(stored: set<(Key, Id)>, k: Key, gone: set<Id>)
    requires forall id :: id in gone ==> (k, id) in stored
    ensures |gone| <= |Inbox(stored, k)|
    ensures forall rows: set<(Key, Id)> :: (forall r :: r in rows <==> r.0 == k && r.1 in gone) ==>
      |Inbox(stored - rows, k)| == |Inbox(stored, k)| - |gone|
    decreases gone
  {
    if gone == {} {
      forall rows: set<(Key, Id)> | (forall r :: r in rows <==> r.0 == k && r.1 in gone)
        ensures stored - rows == stored
      {
      }
    } else {
      var id :| id in gone;
      var rest := stored - {(k, id)};
      assert Inbox(stored, k) == Inbox(rest, k) + {(k, id)};
      GoneAreCounted(rest, k, gone - {id});
      forall rows: set<(Key, Id)> | (forall r :: r in rows <==> r.0 == k && r.1 in gone)
        ensures |Inbox(stored - rows, k)| == |Inbox(stored, k)| - |gone|
      {
        var fewer := rows - {(k, id)};
        assert rest - fewer == stored - rows;
      }
    }
  }

  /** The clamp never acts: a counter is at least the number of messages deleted. */
  lemma AckStatementKeepsGood(s: State, a: Ack)
    requires Counted(s) && GoodAck(s, a)
    ensures GoodAck(s, AckStatement(s, a))
    ensures a.stage == Adjust ==> a.key in s.counts && s.counts[a.key] >= |a.gone|
  {
    GoneAreCounted(s.stored, a.key, a.gone);
    if a.stage.Delete? && a.stage.i < |a.ids| {
      assert a.ids[..a.stage.i + 1] == a.ids[..a.stage.i] + [a.ids[a.stage.i]];
    } else if a.stage.Delete? {
      assert a.ids[..a.stage.i] == a.ids[..|a.ids|];
    }
    if a.stage == Adjust {
      var id :| id in a.gone;
      assert (a.key, id) in s.stored;
    }
  }

  /** A finished enqueue has locked every recipient and inserted its message. */
  lemma AtTheEnd(s: State, e: Enqueue)
    requires GoodEnqueue(s, e) && e.stage.Ready?
    ensures e.inserted == e.to && e.id in s.used
    ensures forall k :: k in e.to <==> k in e.held
    ensures forall k :: k in e.to ==> k in s.counts || k in e.made
    ensures forall k :: k in e.pending <==> k in e.to
    ensures forall k :: k in e.to ==> (k, e.id) !in s.stored
    ensures forall k :: k in e.to ==> Base(s, k) < s.maxRequests && e.pending[k] == Base(s, k) + 1
    ensures forall r :: r in s.stored ==> r.1 != e.id
  {
    assert e.to[..|e.to|] == e.to && e.keys[..|e.keys|] == e.keys;
    forall k | k in e.to ensures (k, e.id) !in s.stored {
      if (k, e.id) in s.stored { assert false; }
    }
  }

  lemma EnqueueCommitInbox(s: State, e: Enqueue, k: Key)
    requires GoodEnqueue(s, e) && e.stage.Ready?
    ensures |Inbox(Committed(s, AnEnqueue(e)).stored, k)| == |Inbox(s.stored, k)| + if k in e.to then 1 else 0
  {
    hide GoodEnqueue;
    AtTheEnd(s, e);
    var s' := Committed(s, AnEnqueue(e));
    if k in e.to {
      assert Inbox(s'.stored, k) == Inbox(s.stored, k) + {(k, e.id)};
    } else {
      assert Inbox(s'.stored, k) == Inbox(s.stored, k);
    }
  }

  lemma EnqueueCommitCounts(s: State, e: Enqueue)
    requires Counted(s) && GoodEnqueue(s, e) && e.stage.Ready?
    ensures Counted(Committed(s, AnEnqueue(e)))
    ensures forall k :: Base(Committed(s, AnEnqueue(e)), k) == Base(s, k) + if k in e.to then 1 else 0
  {
    hide GoodEnqueue, Inbox;
    AtTheEnd(s, e);
    var s' := Committed(s, AnEnqueue(e));
    forall k
      ensures Base(s', k) == Base(s, k) + if k in e.to then 1 else 0
      ensures k in s'.counts ==> s'.counts[k] == |Inbox(s'.stored, k)| <= s.maxRequests
    {
      EnqueueCommitInbox(s, e, k);
      if k !in s.counts { EmptyInbox(s, k); }
    }
  }

  lemma EmptyInbox(s: State, k: Key)
    requires Counted(s) && k !in s.counts
    ensures Inbox(s.stored, k) == {}
  {
  }

  lemma AckCommitInbox(s: State, a: Ack, k: Key)
    requires GoodAck(s, a)
    ensures |Inbox(Committed(s, AnAck(a)).stored, k)| == |Inbox(s.stored, k)| - if k == a.key then |a.gone| else 0
  {
    GoneAreCounted(s.stored, a.key, a.gone);
    assert forall r :: r in AckedRows(a) <==> r.0 == a.key && r.1 in a.gone;
    if k != a.key { assert Inbox(s.stored - AckedRows(a), k) == Inbox(s.stored, k); }
  }

  lemma AckCommitCounts(s: State, a: Ack)
    requires Counted(s) && GoodAck(s, a) && a.stage == Done
    ensures Counted(Committed(s, AnAck(a)))
    ensures forall k :: k != a.key ==> Base(Committed(s, AnAck(a)), k) == Base(s, k)
    ensures Committed(s, AnAck(a)).counts.Keys == s.counts.Keys
    ensures Base(Committed(s, AnAck(a)), a.key) <= Base(s, a.key)
  {
    hide Inbox, AckedRows;
    var s' := Committed(s, AnAck(a));
    forall k | k in s'.counts
      ensures s'.counts[k] == |Inbox(s'.stored, k)| <= s.maxRequests
    {
      AckCommitInbox(s, a, k);
    }
  }

  lemma EnqueueCommitSpares(s: State, e: Enqueue, y: Txn)
    requires Counted(s) && GoodEnqueue(s, e) && e.stage.Ready?
    requires Good(s, y) && Apart(AnEnqueue(e), y)
    ensures Good(Committed(s, AnEnqueue(e)), y)
  {
    hide GoodEnqueue, Inbox, Counted;
    AtTheEnd(s, e);
    var s' := Committed(s, AnEnqueue(e));
    match y
    case AnEnqueue(f) =>
      LockedOrMade(s, f);
      SparesEnqueue(s, s', f);
    case AnAck(b) =>
    case AMarking(_) =>
  }

  lemma LockedOrMade(s: State, f: Enqueue)
    requires GoodEnqueue(s, f)
    ensures f.id in s.used && f.made !! s.counts.Keys
    ensures forall r :: r in s.stored ==> r.1 != f.id
  {
  }

  /** An enqueue is as good after a commit that changes no counter it has locked
      or made, and stores no message of its id. */
  lemma SparesEnqueue(s: State, s': State, f: Enqueue)
    requires GoodEnqueue(s, f) && s'.maxRequests == s.maxRequests && f.id in s'.used
    requires s.counts.Keys <= s'.counts.Keys && s'.counts.Keys !! f.made
    requires forall k :: k in f.held || k in f.made ==> Base(s', k) == Base(s, k)
    requires forall r :: r in s'.stored ==> r.1 != f.id
    ensures GoodEnqueue(s', f)
  {
    if f.stage.Bump? || f.stage.Ready? {
      assert f.keys[..|f.keys|] == f.keys;
      assert forall k :: k in f.to[..Bumped(f)] ==> k in f.to;
    }
  }

  /** What another transaction has locked is not what an acknowledgement removes. */
  lemma RowsApart(a: Ack, y: Txn)
    requires Apart(AnAck(a), y)
    ensures forall k, id :: LocksRow(y, k, id) ==> (k, id) !in AckedRows(a)
  {
    forall k, id | LocksRow(y, k, id) ensures (k, id) !in AckedRows(a) {
      assert LocksRow(AnAck(a), k, id) ==> !LocksRow(y, k, id);
    }
  }

  lemma AckCommitSpares(s: State, a: Ack, y: Txn)
    requires Counted(s) && GoodAck(s, a) && a.stage == Done
    requires Good(s, y) && Apart(AnAck(a), y)
    ensures Good(Committed(s, AnAck(a)), y)
  {
    hide GoodEnqueue, Inbox, Counted;
    var s' := Committed(s, AnAck(a));
    AckCommitCounts(s, a);
    if a.gone == {} { assert s'.counts == s.counts; }
    match y
    case AnEnqueue(f) =>
      LockedOrMade(s, f);
      SparesEnqueue(s, s', f);
    case AnAck(b) => RowsApart(a, y);
    case AMarking(_) => RowsApart(a, y);
  }

  /** What a transaction has done stays right while nothing is committed. */
  lemma SameTables(s: State, s': State, x: Txn)
    requires Good(s, x) && s' == s.(open := s'.open, used := s'.used) && s.used <= s'.used
    ensures Good(s', x)
  {
  }

  lemma ApartSymmetric(x: Txn, y: Txn)
    requires Apart(x, y)
    ensures Apart(y, x)
  {
  }

  /** The invariant after a step that changes one open transaction only. */
  lemma OneChanges(s: State, t: Tx, x: Txn, s': State)
    requires Invariant(s) && s' == s.(open := s.open[t := x], used := s'.used) && s.used <= s'.used
    requires Good(s', x)
    requires forall u :: u in s.open && u != t ==> Apart(x, s.open[u])
    ensures Invariant(s')
  {
    hide Good, Apart;
    forall u | u in s.open && u != t
      ensures Good(s', s.open[u]) && Apart(s.open[u], x)
    {
      SameTables(s, s', s.open[u]);
      ApartSymmetric(x, s.open[u]);
    }
    assert Counted(s') by { assert Counted(s); }
  }

  /** The invariant after a transaction has gone, without a trace in the tables. */
  lemma AbortKeepsInvariant(s: State, t: Tx, s': State)
    requires Invariant(s) && t in s.open && s' == s.(open := s.open - {t})
    ensures Invariant(s')
  {
    hide Good, Apart;
    forall u | u in s'.open ensures Good(s', s.open[u]) {
      SameTables(s, s', s.open[u]);
    }
    assert Counted(s') by { assert Counted(s); }
  }

  lemma BeginKeepsInvariant(s: State, t: Tx, id: Id, parts: seq<Key>, s': State)
    requires Invariant(s) && Next(s, BeginEnqueue(t, id, parts), s')
    ensures Invariant(s')
  {
    FirstOccurrencesAreDistinct(parts);
    SortAscends(FirstOccurrences(parts));
    var x := s'.open[t];
    assert GoodEnqueue(s', x.e) by { assert Counted(s); }
    forall u | u in s.open && u != t ensures Apart(x, s.open[u]) {
      assert Good(s, s.open[u]);
    }
    OneChanges(s, t, x, s');
  }

  lemma BeginAckKeepsInvariant(s: State, t: Tx, key: Key, ids: seq<Id>, s': State)
    requires Invariant(s) && Next(s, BeginAck(t, key, ids), s')
    ensures Invariant(s')
  {
    OneChanges(s, t, s'.open[t], s');
  }

  lemma StatementKeepsInvariant(s: State, t: Tx, s': State)
    requires Invariant(s) && Next(s, Statement(t), s')
    ensures Invariant(s')
  {
    hide Apart, GoodEnqueue, GoodAck, GoodMarking, Counted, Blocked, EnqueueStatement, AckStatement, MarkingStatement;
    assert Good(s, s.open[t]);
    forall u | u in s.open && u != t
      ensures t in s'.open ==> Apart(s'.open[t], s.open[u])
    {
      assert Good(s, s.open[u]) && Apart(s.open[t], s.open[u]);
      StatementKeepsApart(s, t, u);
      if s.open[t].AMarking? { MarkingKeepsApart(s, t, s.open[t].m, u); }
    }
    match s.open[t] {
      case AnEnqueue(e) => EnqueueStatementKeepsGood(s, e);
      case AnAck(a) => AckStatementKeepsGood(s, a);
      case AMarking(m) => MarkingKeepsGood(s, m, Taken(s, t, m.key, m.ids[m.i]));
    }
    if t in s'.open {
      assert Good(s, s'.open[t]);
      SameTables(s, s', s'.open[t]);
      OneChanges(s, t, s'.open[t], s');
    } else {
      AbortKeepsInvariant(s, t, s');
    }
  }

  lemma BeginMarkingKeepsInvariant(s: State, t: Tx, key: Key, ids: seq<Id>, waits: bool, s': State)
    requires Invariant(s) && Next(s, BeginMarking(t, key, ids, waits), s')
    ensures Invariant(s')
  {
    OneChanges(s, t, s'.open[t], s');
  }

  lemma CommitKeepsInvariant(s: State, t: Tx, s': State)
    requires Invariant(s) && Next(s, Commit(t), s')
    ensures Invariant(s')
  {
    var x := s.open[t];
    var c := Committed(s, x);
    match x {
      case AnEnqueue(e) => EnqueueCommitCounts(s, e);
      case AnAck(a) => AckCommitCounts(s, a);
      case AMarking(_) =>
    }
    forall u | u in s'.open ensures Good(s', s'.open[u]) {
      assert Apart(x, s.open[u]);
      match x {
        case AnEnqueue(e) => EnqueueCommitSpares(s, e, s.open[u]);
        case AnAck(a) => AckCommitSpares(s, a, s.open[u]);
        case AMarking(_) =>
      }
      SameTables(c, s', s.open[u]);
    }
  }

  lemma NextKeepsInvariant(s: State, step: Step, s': State)
    requires Invariant(s) && Next(s, step, s')
    ensures Invariant(s')
  {
    hide Counted, Good, Apart;
    match step
    case BeginEnqueue(t, id, parts) => BeginKeepsInvariant(s, t, id, parts, s');
    case BeginAck(t, key, ids) => BeginAckKeepsInvariant(s, t, key, ids, s');
    case Statement(t) => StatementKeepsInvariant(s, t, s');
    case BeginMarking(t, key, ids, waits) => BeginMarkingKeepsInvariant(s, t, key, ids, waits, s');
    case Commit(t) => CommitKeepsInvariant(s, t, s');
    case Abort(t) => AbortKeepsInvariant(s, t, s');
  }

  /** In every run, whatever the interleaving. */
  lemma {:induction false} RunKeepsInvariant(states: seq<State>, steps: seq<Step>, i: nat)
    requires Run(states, steps) && i < |states|
    ensures Invariant(states[i])
  {
    if i > 0 {
      RunKeepsInvariant(states, steps, i - 1);
      NextKeepsInvariant(states[i - 1], steps[i - 1], states[i]);
    }
  }
}
