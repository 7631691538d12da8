/** Both halves of the condition for a deadlock. */
module DeadlockProof {
  import opened Transactions
  import opened TransactionProof
  import opened TransactionResults
  import opened Deadlocks

  // ---- orders that cross deadlock --------------------------------------------

  lemma LeadsItself(works: Works, s: State)
    ensures Leads(works, s, s)
  {
    assert Schedule(works, [s], [], s);
  }

  lemma LeadsOn(works: Works, s: State, s': State, step: Step, s'': State)
    requires Leads(works, s, s') && Next(s', step, s'') && (step.Statement? || step.Commit?)
    ensures Leads(works, s, s'')
  {
    hide Next;
    var states, steps :| Schedule(works, states, steps, s) && states[|steps|] == s';
    assert Schedule(works, states + [s''], steps + [step], s);
  }

  lemma VisitGrows(s: State, w: Work, m: nat, n: nat)
    requires m <= n <= |w.ids|
    ensures Visit(s, w, m) <= Visit(s, w, n)
    ensures m < n ==> Visit(s, w, m + 1) == Visit(s, w, m) + if (w.key, w.ids[m]) in s.stored then {w.ids[m]} else {}
  {
    if m < n { assert w.ids[..m + 1] == w.ids[..m] + [w.ids[m]]; }
  }

  lemma RowIsVisited(s: State, now: State, w: Work, n: nat)
    requires n < |w.ids| && now.stored == s.stored
    ensures match AfterRows(s, w, n)
            case AnEnqueue(_) => false
            case AnAck(a) => AnAck(AckStatement(now, a)) == AfterRows(s, w, n + 1)
            case AMarking(m) => AMarking(MarkingStatement(now, m, false)) == AfterRows(s, w, n + 1)
  {
    VisitGrows(s, w, n, n + 1);
  }

  /** At disjoint prefixes the next row of a statement that stays disjoint is free. */
  lemma VisitsNext(s: State, works: Works, at: map<Tx, nat>, t: Tx)
    requires Within(works, at) && t in works && at[t] < |works[t].ids|
    requires Within(works, at[t := at[t] + 1]) && Disjoint(s, works, at[t := at[t] + 1])
    ensures Next(At(s, works, at), Statement(t), At(s, works, at[t := at[t] + 1]))
  {
    var w, n := works[t], at[t];
    var now, next := At(s, works, at), At(s, works, at[t := n + 1]);
    RowIsVisited(s, now, w, n);
    NextRowIsFree(s, works, at, t);
    assert now.open[t] == AfterRows(s, w, n);
    assert next.open == now.open[t := AfterRows(s, w, n + 1)] by { hide AfterRows; }
    hide Visit, Disjoint, Blocked, Taken, AckStatement;
  }

  lemma NextRowIsFree(s: State, works: Works, at: map<Tx, nat>, t: Tx)
    requires Within(works, at) && t in works && at[t] < |works[t].ids|
    requires Within(works, at[t := at[t] + 1]) && Disjoint(s, works, at[t := at[t] + 1])
    ensures forall u :: u in works && u != t ==>
      ((works[t].key, works[t].ids[at[t]]) in s.stored ==> !LocksRow(At(s, works, at).open[u], works[t].key, works[t].ids[at[t]]))
    ensures !Blocked(At(s, works, at), t)
    ensures (works[t].key, works[t].ids[at[t]]) in s.stored ==> !Taken(At(s, works, at), t, works[t].key, works[t].ids[at[t]])
  {
    var w, n := works[t], at[t];
    var now, later := At(s, works, at), at[t := n + 1];
    VisitGrows(s, w, n, n + 1);
    forall u | u in works && u != t ensures (w.key, w.ids[n]) in s.stored ==> !LocksRow(now.open[u], w.key, w.ids[n]) {
      assert later[u] == at[u] && later[t] == n + 1;
      assert works[u].key == w.key ==> Visit(s, w, n + 1) !! Visit(s, works[u], at[u]);
    }
  }

  /** Prefixes of disjoint prefixes are disjoint. */
  lemma ShorterIsDisjoint(s: State, works: Works, at: map<Tx, nat>, t: Tx, n: nat)
    requires Within(works, at) && Disjoint(s, works, at) && t in works && n <= at[t]
    ensures Within(works, at[t := n]) && Disjoint(s, works, at[t := n])
  {
    VisitGrows(s, works[t], n, at[t]);
    hide Visit;
  }

  /** One statement goes on from its start. */
  lemma {:induction false} OneAdvances(all: Works, from: State, s: State, works: Works, at: map<Tx, nat>, t: Tx, n: nat)
    requires Within(works, at) && Disjoint(s, works, at) && t in works && n <= at[t]
    requires Within(works, at[t := 0]) && Leads(all, from, At(s, works, at[t := 0]))
    ensures Within(works, at[t := n]) && Leads(all, from, At(s, works, at[t := n]))
  {
    hide Leads, Disjoint, At;
    if n > 0 {
      OneAdvances(all, from, s, works, at, t, n - 1);
      ShorterIsDisjoint(s, works, at, t, n);
      var before := at[t := n - 1];
      assert before[t := n] == at[t := n];
      VisitsNext(s, works, before, t);
      LeadsOn(all, from, At(s, works, before), Statement(t), At(s, works, at[t := n]));
    }
  }

  function Moved(at: map<Tx, nat>): set<Tx> { set t | t in at && at[t] > 0 }

  /** Any disjoint prefixes can be reached, one statement after the other. */
  lemma {:induction false} AllAdvance(all: Works, from: State, s: State, works: Works, at: map<Tx, nat>)
    requires Within(works, at) && Disjoint(s, works, at)
    requires Leads(all, from, At(s, works, Start(works)))
    ensures Leads(all, from, At(s, works, at))
    decreases Moved(at)
  {
    hide Leads, Disjoint, At;
    if t :| t in Moved(at) {
      ShorterIsDisjoint(s, works, at, t, 0);
      assert t in Moved(at) && Moved(at[t := 0]) == Moved(at) - {t};
      AllAdvance(all, from, s, works, at[t := 0]);
      OneAdvances(all, from, s, works, at, t, at[t]);
      assert at[t := at[t]] == at;
    } else {
      forall t | t in at ensures at[t] == 0 { assert t !in Moved(at); }
      assert at == Start(works);
    }
  }

  lemma MeetsIsWaiting(s: State, works: Works, at: map<Tx, nat>, t: Tx, u: Tx)
    requires Within(works, at) && Meets(s, works, at, t, u)
    ensures Waits(At(s, works, at), t, u, true)
  {
    assert WaitsForRow(At(s, works, at), t, works[t].ids[at[t]], u);
  }

  lemma CrossingIsCycle(s: State, works: Works, at: map<Tx, nat>, chain: seq<Tx>)
    requires Crossing(s, works, at, chain)
    ensures Cycle(At(s, works, at), chain)
  {
    hide At, Disjoint, Meets, Waits;
    forall i | 0 <= i < |chain| - 1 ensures Waits(At(s, works, at), chain[i], chain[i + 1], true) {
      MeetsIsWaiting(s, works, at, chain[i], chain[i + 1]);
    }
  }

  /** The others are at their start while `t` is at `x`. */
  ghost function Beside(s: State, works: Works, t: Tx, x: Txn): State {
    s.(open := (map u | u in works - {t} :: AfterRows(s, works[u], 0))[t := x])
  }

  lemma NobodyHolds(s: State, works: Works, t: Tx, x: Txn)
    requires x.AnAck? && (x.a.stage == Adjust || (x.a.stage.Delete? && x.a.stage.i >= |x.a.ids|))
    ensures !Blocked(Beside(s, works, t, x), t)
  {
  }

  /** An acknowledgement that has visited its messages, with nobody in its way, ends. */
  lemma AckEnds(all: Works, from: State, s: State, works: Works, t: Tx, a: Ack) returns (b: Ack)
    requires a.stage == Delete(|a.ids|) && Leads(all, from, Beside(s, works, t, AnAck(a)))
    ensures b.stage == Done && b.key == a.key && b.gone == a.gone && Leads(all, from, Beside(s, works, t, AnAck(b)))
  {
    hide Leads, Blocked;
    NobodyHolds(s, works, t, AnAck(a));
    var before := Beside(s, works, t, AnAck(a));
    var a1 := AckStatement(before, a);
    assert Beside(s, works, t, AnAck(a1)) == before.(open := before.open[t := AnAck(a1)]);
    LeadsOn(all, from, before, Statement(t), Beside(s, works, t, AnAck(a1)));
    b := a1;
    if a1.stage == Adjust {
      NobodyHolds(s, works, t, AnAck(a1));
      var between := Beside(s, works, t, AnAck(a1));
      b := AckStatement(between, a1);
      assert Beside(s, works, t, AnAck(b)) == between.(open := between.open[t := AnAck(b)]);
      LeadsOn(all, from, between, Statement(t), Beside(s, works, t, AnAck(b)));
    }
  }

  lemma CommitEnds(all: Works, from: State, s: State, works: Works, t: Tx, x: Txn) returns (s1: State)
    requires Finished(x) && Leads(all, from, Beside(s, works, t, x)) && t in works
    ensures s1 == Committed(s, x).(open := map[]) && Leads(all, from, At(s1, works - {t}, Start(works - {t})))
  {
    hide Leads, Committed;
    s1 := Committed(s, x).(open := map[]);
    var before, rest := Beside(s, works, t, x), works - {t};
    var after := Committed(before, x).(open := before.open - {t});
    assert before.open[t] == x;
    SameCommit(s, before, x);
    forall u | u in rest ensures AfterRows(s1, rest[u], 0) == AfterRows(s, works[u], 0) {
      assert Visit(s1, rest[u], 0) == {} == Visit(s, works[u], 0);
    }
    assert At(s1, rest, Start(rest)).open == after.open;
    LeadsOn(all, from, before, Commit(t), after);
  }

  lemma SameCommit(s: State, s': State, x: Txn)
    requires s' == s.(open := s'.open)
    ensures Committed(s', x) == Committed(s, x).(open := s'.open)
  {
  }

  /** Once all its messages are visited, `t` has locked those that are stored. */
  lemma VisitedAll(s: State, works: Works, t: Tx)
    requires t in works
    ensures var w := works[t]; Within(works, Start(works)[t := |w.ids|]) && Disjoint(s, works, Start(works)[t := |w.ids|])
    ensures var w := works[t];
      At(s, works, Start(works)[t := |w.ids|]) == Beside(s, works, t, AfterRows(s, w, |w.ids|))
  {
    forall u | u in works ensures Visit(s, works[u], 0) == {} {}
  }

  lemma CommittedStored(s: State, works: Works, t: Tx, x: Txn)
    requires t in works
    requires var w := works[t];
      if w.deletes then x.AnAck? && x.a.key == w.key && x.a.gone == Visit(s, w, |w.ids|) else x.AMarking?
    ensures Committed(s, x).stored == After(s, works, {t}).stored
  {
    var w := works[t];
    if w.deletes {
      forall r | r in s.stored ensures r in AckedRows(x.a) <==> Deletes(works, t, r) {
        assert r in AckedRows(x.a) <==> r.0 == w.key && r.1 in x.a.gone;
        assert w.ids[..|w.ids|] == w.ids;
      }
    }
  }

  /** One of the works runs by itself, and commits. */
  lemma OneCommits(all: Works, from: State, s: State, works: Works, t: Tx) returns (s1: State)
    requires t in works && Leads(all, from, At(s, works, Start(works)))
    ensures s1.open == map[] && s1.stored == After(s, works, {t}).stored
    ensures Leads(all, from, At(s1, works - {t}, Start(works - {t})))
  {
    hide Leads, At, Disjoint, Beside, After, Committed;
    var w, at := works[t], Start(works)[t := |works[t].ids|];
    VisitedAll(s, works, t);
    assert at[t := 0] == Start(works) && at[t := |w.ids|] == at;
    OneAdvances(all, from, s, works, at, t, |w.ids|);
    var x := AfterRows(s, w, |w.ids|);
    if w.deletes {
      var a := AckEnds(all, from, s, works, t, x.a);
      x := AnAck(a);
    }
    CommittedStored(s, works, t, x);
    s1 := CommitEnds(all, from, s, works, t, x);
  }

  lemma AfterMore(s: State, works: Works, t: Tx, done: set<Tx>, s1: State)
    requires t in done && s1.stored == After(s, works, {t}).stored
    ensures After(s1, works - {t}, done - {t}).stored == After(s, works, done).stored
  {
    forall r | r in s.stored
      ensures (exists u :: u in done && Deletes(works, u, r))
        <==> Deletes(works, t, r) || exists u :: u in done - {t} && Deletes(works - {t}, u, r)
    {
      if u :| u in done && Deletes(works, u, r) {
        if u != t { assert u in done - {t} && Deletes(works - {t}, u, r); }
      }
      if u :| u in done - {t} && Deletes(works - {t}, u, r) { assert Deletes(works, u, r); }
    }
    forall r ensures r in s1.stored <==> r in s.stored && !Deletes(works, t, r) {
      assert (exists u :: u in {t} && Deletes(works, u, r)) <==> Deletes(works, t, r);
    }
  }

  /** Those in `done` run and commit, one after the other. */
  lemma {:induction false} SomeCommit(all: Works, from: State, s: State, works: Works, done: set<Tx>) returns (s1: State)
    requires done <= works.Keys && Leads(all, from, At(s, works, Start(works)))
    ensures s1.stored == After(s, works, done).stored
    ensures Leads(all, from, At(s1, works - done, Start(works - done)))
    decreases done
  {
    hide Leads, At;
    if done == {} {
      s1 := s;
      assert works - done == works;
    } else {
      var t :| t in done;
      var between := OneCommits(all, from, s, works, t);
      s1 := SomeCommit(all, from, between, works - {t}, done - {t});
      AfterMore(s, works, t, done, between);
      assert (works - {t}) - (done - {t}) == works - done;
    }
  }

  /** Only the stored messages matter to the orders. */
  lemma SameCrossing(s: State, s': State, works: Works, at: map<Tx, nat>, chain: seq<Tx>)
    requires s'.stored == s.stored && Crossing(s, works, at, chain)
    ensures Crossing(s', works, at, chain)
  {
    forall t | t in works ensures Visit(s, works[t], at[t]) == Visit(s', works[t], at[t]) {}
    hide Visit;
    forall i | 0 <= i < |chain| - 1 ensures Meets(s', works, at, chain[i], chain[i + 1]) {
      assert Meets(s, works, at, chain[i], chain[i + 1]);
    }
  }

  lemma CrossingDeadlocks(s: State, works: Works, done: set<Tx>, at: map<Tx, nat>, chain: seq<Tx>)
    requires done <= works.Keys && Crossing(After(s, works, done), works - done, at, chain)
    ensures CanDeadlock(s, works)
  {
    hide Leads, At, Disjoint, Meets, Cycle, After;
    var from := At(s, works, Start(works));
    LeadsItself(works, from);
    var s1 := SomeCommit(works, from, s, works, done);
    SameCrossing(After(s, works, done), s1, works - done, at, chain);
    AllAdvance(works, from, s1, works - done, at);
    CrossingIsCycle(s1, works - done, at, chain);
  }

  // ---- and no others do ------------------------------------------------------

  /** The transaction carries out the work and has locked the rows it has visited. */
  ghost predicate Carries(s: State, w: Work, x: Txn) {
    && PositionOf(x) <= |w.ids|
    && match x
       case AnEnqueue(_) => false
       case AnAck(a) => w.deletes && a.key == w.key && a.ids == w.ids && a.gone == Visit(s, w, Visited(a))
       case AMarking(m) => !w.deletes && m.key == w.key && m.ids == w.ids && m.waits && m.marked == Visit(s, w, m.i)
  }

  /** The same of the work's messages are stored. */
  ghost predicate SameRows(s: State, w: Work, s': State) {
    forall id :: id in w.ids ==> ((w.key, id) in s.stored <==> (w.key, id) in s'.stored)
  }

  /** An enqueue of a new message, or a claim. */
  ghost predicate Stranger(works: Works, x: Txn) {
    match x
    case AnEnqueue(e) => !Names(works, e.id)
    case AnAck(_) => false
    case AMarking(m) => !m.waits
  }

  /** `s'` is a state of a schedule of the works, whose tables, as far as the works go, are
      those of `s`, and of which those in `rest` are still open. */
  ghost predicate Tracks(s: State, works: Works, rest: Works, s': State) {
    && (forall t :: t in works ==> SameRows(s, works[t], s'))
    && (forall t :: t in rest ==> t in works && rest[t] == works[t] && t in s'.open && Carries(s, rest[t], s'.open[t]))
    && (forall t :: t in s'.open && t !in rest ==> Stranger(works, s'.open[t]))
  }

  lemma AckCarries(s: State, w: Work, s': State, a: Ack)
    requires SameRows(s, w, s') && Carries(s, w, AnAck(a)) && a.stage != Done
    ensures Carries(s, w, AnAck(AckStatement(s', a)))
  {
    if a.stage.Delete? && a.stage.i < |a.ids| { VisitGrows(s, w, a.stage.i, |a.ids|); }
  }

  lemma MarkingCarries(s: State, w: Work, s': State, m: Marking)
    requires SameRows(s, w, s') && Carries(s, w, AMarking(m)) && m.i < |m.ids|
    ensures Carries(s, w, AMarking(MarkingStatement(s', m, false)))
  {
    VisitGrows(s, w, m.i, |m.ids|);
  }

  /** A release that is not blocked finds its next row free. */
  lemma FreeUnlessBlocked(s: State, t: Tx, m: Marking)
    requires t in s.open && s.open[t] == AMarking(m) && m.waits && m.i < |m.ids| && !Blocked(s, t)
    ensures (m.key, m.ids[m.i]) in s.stored ==> !Taken(s, t, m.key, m.ids[m.i])
  {
    if (m.key, m.ids[m.i]) in s.stored && Taken(s, t, m.key, m.ids[m.i]) {
      var u :| u in s.open && u != t && LocksRow(s.open[u], m.key, m.ids[m.i]);
      assert WaitsForRow(s, t, m.ids[m.i], u);
    }
  }

  lemma NoEnqueue(s: State, w: Work, x: Txn)
    requires Carries(s, w, x)
    ensures !x.AnEnqueue? && (x.AMarking? ==> x.m.waits)
  {
  }

  /** A statement of one of the works. */
  lemma WorkStatement(s: State, works: Works, rest: Works, s': State, t: Tx, s'': State)
    requires Tracks(s, works, rest, s') && t in rest && Next(s', Statement(t), s'')
    ensures Tracks(s, works, rest, s'')
  {
    hide Carries, Blocked, Taken, AckStatement, Stranger;
    var w, x := works[t], s'.open[t];
    assert Carries(s, w, x) && SameRows(s, w, s');
    NoEnqueue(s, w, x);
    match x
    case AnEnqueue(_) => assert false;
    case AnAck(a) => AckCarries(s, w, s', a);
    case AMarking(m) =>
      FreeUnlessBlocked(s', t, m);
      MarkingCarries(s, w, s', m);
  }

  /** A step that begins, moves or removes a stranger, or aborts one of the works. */
  lemma OtherOpen(s: State, works: Works, rest: Works, s': State, t: Tx, s'': State)
    requires Tracks(s, works, rest, s') && s''.stored == s'.stored
    requires forall u :: u != t ==> (u in s''.open <==> u in s'.open) && (u in s'.open ==> s''.open[u] == s'.open[u])
    requires t in s''.open ==> t !in rest && Stranger(works, s''.open[t])
    ensures Tracks(s, works, rest - {t}, s'')
  {
    hide Carries, Stranger;
  }

  lemma StrangerStatement(s: State, works: Works, rest: Works, s': State, t: Tx, s'': State)
    requires Tracks(s, works, rest, s') && t !in rest && Next(s', Statement(t), s'')
    ensures Tracks(s, works, rest - {t}, s'')
  {
    hide Carries, Blocked, Taken;
    assert Stranger(works, s'.open[t]);
    if s'.open[t].AnEnqueue? { SameEnqueue(s', s'.open[t].e); }
    hide EnqueueStatement, AckStatement;
    OtherOpen(s, works, rest, s', t, s'');
  }

  lemma SameEnqueue(s: State, e: Enqueue)
    ensures EnqueueStatement(s, e).Some? ==> EnqueueStatement(s, e).value.id == e.id
  {
  }

  lemma StrangerCommit(s: State, works: Works, rest: Works, s': State, t: Tx, s'': State)
    requires Tracks(s, works, rest, s') && t !in rest && Next(s', Commit(t), s'')
    ensures Tracks(s, works, rest, s'')
  {
    hide Carries;
    assert Stranger(works, s'.open[t]);
    forall u | u in works ensures SameRows(s, works[u], s'') {
      assert SameRows(s, works[u], s');
      if s'.open[t].AnEnqueue? { assert forall r :: r in EnqueuedRows(s'.open[t].e) ==> r.1 == s'.open[t].e.id; }
    }
    hide SameRows, Stranger;
  }

  lemma LockedIsVisited(s: State, w: Work, x: Txn, id: Id)
    requires Carries(s, w, x)
    ensures LocksRow(x, w.key, id) <==> id in Visit(s, w, PositionOf(x))
  {
  }

  /** What the others have visited is not among what an acknowledgement removes. */
  lemma OthersKeepRows(s: State, works: Works, t: Tx, x: Txn, u: Tx, y: Txn)
    requires t in works && u in works && Carries(s, works[t], x) && x.AnAck? && x.a.stage == Done
    requires Carries(s, works[u], y) && Apart(x, y)
    ensures Carries(After(s, works, {t}), works[u], y)
  {
    var w, v, n := works[t], works[u], PositionOf(y);
    var s' := After(s, works, {t});
    assert w.ids[..|w.ids|] == w.ids;
    forall id ensures id in Visit(s, v, n) <==> id in Visit(s', v, n) {
      if id in Visit(s, v, n) && Deletes(works, t, (v.key, id)) {
        LockedIsVisited(s, w, x, id);
        LockedIsVisited(s, v, y, id);
      }
    }
    assert Visit(s, v, n) == Visit(s', v, n);
  }

  /** The commit of one of the acknowledgements. */
  lemma AckCommit(s: State, works: Works, rest: Works, s': State, t: Tx, s'': State)
    requires Tracks(s, works, rest, s') && Invariant(s') && t in rest && s'.open[t].AnAck? && Next(s', Commit(t), s'')
    ensures Tracks(After(s, works, {t}), works, rest - {t}, s'')
  {
    var x := s'.open[t];
    assert Carries(s, works[t], x);
    AckRemoves(s, works, rest, s', t, s'');
    hide Carries, SameRows, Stranger, Counted, Good, Apart, After, Committed;
    forall u | u in rest - {t} ensures Carries(After(s, works, {t}), works[u], s''.open[u]) {
      assert Carries(s, works[u], s'.open[u]) && Apart(x, s'.open[u]);
      OthersKeepRows(s, works, t, x, u, s'.open[u]);
    }
  }

  lemma AckRemoves(s: State, works: Works, rest: Works, s': State, t: Tx, s'': State)
    requires Tracks(s, works, rest, s') && t in rest && s'.open[t].AnAck? && Next(s', Commit(t), s'')
    ensures forall u :: u in works ==> SameRows(After(s, works, {t}), works[u], s'')
  {
    var a, w := s'.open[t].a, works[t];
    assert Carries(s, w, s'.open[t]) && w.ids[..|w.ids|] == w.ids;
    forall u | u in works ensures SameRows(After(s, works, {t}), works[u], s'') {
      assert SameRows(s, works[u], s');
      forall id | id in works[u].ids && (works[u].key, id) in s.stored
        ensures Deletes(works, t, (works[u].key, id)) <==> (works[u].key, id) in AckedRows(a)
      {
        assert (works[u].key, id) in AckedRows(a) <==> works[u].key == a.key && id in a.gone;
      }
    }
  }

  /** Some of the works have committed, some have aborted, and the rest are open. */
  ghost predicate Tracked(s: State, works: Works, s': State) {
    exists done: set<Tx>, rest: Works :: done <= works.Keys && rest.Keys !! done && Tracks(After(s, works, done), works, rest, s')
  }

  lemma AfterOneMore(s: State, works: Works, done: set<Tx>, t: Tx)
    ensures After(After(s, works, done), works, {t}) == After(s, works, done + {t})
  {
    forall r ensures (exists u :: u in done + {t} && Deletes(works, u, r)) <==> (exists u :: u in done && Deletes(works, u, r)) || Deletes(works, t, r) {
      if u :| u in done + {t} && Deletes(works, u, r) { assert u == t || u in done; }
      if u :| u in done && Deletes(works, u, r) { assert u in done + {t}; }
      if Deletes(works, t, r) { assert t in done + {t}; }
    }
    assert forall r :: (exists u :: u in {t} && Deletes(works, u, r)) <==> Deletes(works, t, r);
  }

  lemma CommitTracked(s: State, works: Works, s': State, t: Tx, s'': State)
    requires Tracked(s, works, s') && Invariant(s') && Next(s', Commit(t), s'')
    ensures Tracked(s, works, s'')
  {
    hide Tracks, Invariant, After;
    var done: set<Tx>, rest: Works :| done <= works.Keys && rest.Keys !! done && Tracks(After(s, works, done), works, rest, s');
    var base := After(s, works, done);
    if t !in rest {
      StrangerCommit(base, works, rest, s', t, s'');
    } else if s'.open[t].AnAck? {
      AckCommit(base, works, rest, s', t, s'');
      AfterOneMore(s, works, done, t);
      InWorks(base, works, rest, s', t);
      assert done + {t} <= works.Keys && (rest - {t}).Keys !! done + {t};
    } else {
      InWorks(base, works, rest, s', t);
      OtherOpen(base, works, rest, s', t, s'');
      assert (rest - {t}).Keys !! done;
    }
  }

  lemma InWorks(s: State, works: Works, rest: Works, s': State, t: Tx)
    requires Tracks(s, works, rest, s') && t in rest
    ensures t in works && t in s'.open && !s'.open[t].AnEnqueue?
  {
    assert Carries(s, works[t], s'.open[t]);
  }

  lemma OtherStepTracked(s: State, works: Works, s': State, step: Step, s'': State)
    requires Tracked(s, works, s') && Allowed(works, step) && Next(s', step, s'') && !step.Commit?
    ensures Tracked(s, works, s'')
  {
    hide After;
    var done: set<Tx>, rest: Works :| done <= works.Keys && rest.Keys !! done && Tracks(After(s, works, done), works, rest, s');
    var base, t := After(s, works, done), step.t;
    if step.Statement? && t in rest {
      hide Tracks, Next;
      WorkStatement(base, works, rest, s', t, s'');
    } else {
      if step.Statement? {
        StrangerStatement(base, works, rest, s', t, s'');
      } else {
        assert t in rest ==> t in s'.open;
        hide Tracks, Names;
        OtherOpen(base, works, rest, s', t, s'');
      }
      assert (rest - {t}).Keys !! done;
    }
  }

  lemma BegunIsGood(s: State, w: Work, v: Work)
    ensures Good(s, AfterRows(s, w, 0)) && Carries(s, w, AfterRows(s, w, 0))
    ensures Apart(AfterRows(s, w, 0), AfterRows(s, v, 0))
  {
    assert Visit(s, w, 0) == {} == Visit(s, v, 0);
  }

  lemma StartTracked(s: State, works: Works)
    requires Invariant(s) && s.open == map[]
    ensures var s' := At(s, works, Start(works)); Invariant(s') && Tracked(s, works, s')
  {
    hide Good, Apart, Carries, AfterRows, Stranger;
    var s' := At(s, works, Start(works));
    assert Counted(s') by { assert Counted(s); }
    forall t, u | t in works && u in works
      ensures Good(s', s'.open[t]) && Carries(s, works[t], s'.open[t]) && Apart(s'.open[t], s'.open[u])
    {
      BegunIsGood(s, works[t], works[u]);
      SameTables(s, s', s'.open[t]);
    }
    assert After(s, works, {}) == s;
    assert Tracks(s, works, works, s');
    assert {} <= works.Keys && works.Keys !! {};
  }

  lemma {:induction false} ScheduleTracked(states: seq<State>, steps: seq<Step>, s: State, works: Works, i: nat)
    requires Invariant(s) && s.open == map[] && Schedule(works, states, steps, At(s, works, Start(works))) && i < |states|
    ensures Invariant(states[i]) && Tracked(s, works, states[i])
  {
    hide Invariant, Tracked, Next, At, Allowed;
    if i == 0 {
      StartTracked(s, works);
    } else {
      ScheduleTracked(states, steps, s, works, i - 1);
      NextKeepsInvariant(states[i - 1], steps[i - 1], states[i]);
      if steps[i - 1].Commit? {
        CommitTracked(s, works, states[i - 1], steps[i - 1].t, states[i]);
      } else {
        OtherStepTracked(s, works, states[i - 1], steps[i - 1], states[i]);
      }
    }
  }

  /** How far those of the works that have not committed have come; those that are not
      open any more count as not begun. */
  ghost function PositionsOf(works: Works, rest: Works, s': State): map<Tx, nat> {
    map t | t in works :: if t in rest && t in s'.open then PositionOf(s'.open[t]) else 0
  }

  /** Who waits for a message, and is waited for and waits, is one of the works, and meets
      the other's prefix. */
  lemma WaitingMeets(s: State, works: Works, rest: Works, left: Works, s': State, t: Tx, u: Tx)
    requires Tracks(s, works, rest, s') && WaitsForMessage(s', t, u) && WaitsForSome(s', u)
    requires rest.Keys <= left.Keys && forall v :: v in left ==> v in works && left[v] == works[v]
    ensures Within(left, PositionsOf(left, rest, s')) && Meets(s, left, PositionsOf(left, rest, s'), t, u)
  {
    hide Visit, Names, SameRows;
    PositionsFit(s, works, rest, left, s');
    var id :| WaitsForRow(s', t, id, u);
    assert !Stranger(works, s'.open[t]) && !Stranger(works, s'.open[u]);
    assert Carries(s, works[t], s'.open[t]) && Carries(s, works[u], s'.open[u]);
    LockedIsVisited(s, works[u], s'.open[u], id);
  }

  lemma PositionsFit(s: State, works: Works, rest: Works, left: Works, s': State)
    requires Tracks(s, works, rest, s')
    requires forall v :: v in left ==> v in works && left[v] == works[v]
    ensures Within(left, PositionsOf(left, rest, s'))
  {
    forall t | t in left ensures PositionsOf(left, rest, s')[t] <= |left[t].ids| {
      if t in rest { assert Carries(s, rest[t], s'.open[t]); }
    }
  }

  lemma PositionsAreDisjoint(s: State, works: Works, rest: Works, left: Works, s': State)
    requires Tracks(s, works, rest, s') && Invariant(s')
    requires forall v :: v in left ==> v in works && left[v] == works[v]
    ensures Within(left, PositionsOf(left, rest, s')) && Disjoint(s, left, PositionsOf(left, rest, s'))
  {
    hide Counted, Good, SameRows, Stranger, Carries;
    PositionsFit(s, works, rest, left, s');
    var at := PositionsOf(left, rest, s');
    forall t, u | t in left && u in left && t != u && left[t].key == left[u].key
      ensures Visit(s, left[t], at[t]) !! Visit(s, left[u], at[u])
    {
      if t in rest && u in rest {
        assert Carries(s, left[t], s'.open[t]) && Carries(s, left[u], s'.open[u]) && Apart(s'.open[t], s'.open[u]);
        forall id ensures id !in Visit(s, left[t], at[t]) || id !in Visit(s, left[u], at[u]) {
          LockedIsVisited(s, left[t], s'.open[t], id);
          LockedIsVisited(s, left[u], s'.open[u], id);
        }
      }
    }
  }

  lemma DeadlockCrosses(s: State, works: Works, s': State, chain: seq<Tx>) returns (done: set<Tx>, at: map<Tx, nat>)
    requires Invariant(s) && s.open == map[] && Leads(works, At(s, works, Start(works)), s') && Cycle(s', chain)
    ensures done <= works.Keys && Crossing(After(s, works, done), works - done, at, chain)
  {
    hide Invariant, At, Tracks, Meets, Disjoint, WaitsForMessage, WaitsForSome, Waits, Next, Allowed, After;
    var states, steps :| Schedule(works, states, steps, At(s, works, Start(works))) && states[|steps|] == s';
    ScheduleTracked(states, steps, s, works, |steps|);
    var rest: Works;
    done, rest :| done <= works.Keys && rest.Keys !! done && Tracks(After(s, works, done), works, rest, s');
    var base, left := After(s, works, done), works - done;
    RestIsLeft(base, works, rest, s', done);
    at := PositionsOf(left, rest, s');
    PositionsAreDisjoint(base, works, rest, left, s');
    forall i | 0 <= i < |chain| - 1 ensures Meets(base, left, at, chain[i], chain[i + 1]) {
      CycleIsOverMessages(s', chain, i);
      NextInCycle(s', chain, i);
      WaitingMeets(base, works, rest, left, s', chain[i], chain[i + 1]);
    }
  }

  lemma RestIsLeft(s: State, works: Works, rest: Works, s': State, done: set<Tx>)
    requires Tracks(s, works, rest, s') && rest.Keys !! done
    ensures rest.Keys <= (works - done).Keys
  {
  }
}
