/** Exactly when acknowledgements and releases deadlock, and the runs in which they do. */
module DeadlockResults {
  import opened MachineInts
  import opened StringOrder
  import opened Wrappers
  import opened Recipients
  import opened Transactions
  import opened Deadlocks
  import opened DeadlockProof

  /** The exact condition.  Any number of acknowledgements and releases, begun in any
      reachable state at rest, can come to a circular wait, while they commit and abort
      and enqueues and claims go on beside them, if and only if some of them can commit
      such that the orders of the others cross over what is then stored. */
  lemma DeadlockIffCrossing(s: State, works: Works)
    requires Reachable(s) && s.open == map[]
    ensures CanDeadlock(s, works) <==>
      exists done, at, chain :: done <= works.Keys && Crossing(After(s, works, done), works - done, at, chain)
  {
    hide Reachable, Crossing, Leads, Cycle, Invariant, After;
    ReachableInvariant(s);
    if s', chain :| Leads(works, At(s, works, Start(works)), s') && Cycle(s', chain) {
      var done, at := DeadlockCrosses(s, works, s', chain);
    }
    if done, at, chain :| done <= works.Keys && Crossing(After(s, works, done), works - done, at, chain) {
      CrossingDeadlocks(s, works, done, at, chain);
    }
  }

  // ---- two statements --------------------------------------------------------

  /** At the positions `i` and `j` each of two orders over one inbox is at a message that
      the other has behind it, and they have no message behind them in common. */
  predicate CrossAt(stored: set<(Key, Id)>, k: Key, xs: seq<Id>, ys: seq<Id>, i: nat, j: nat) {
    && i < |xs| && j < |ys| && (k, xs[i]) in stored && (k, ys[j]) in stored
    && xs[i] in ys[..j] && ys[j] in xs[..i]
    && forall x :: x in xs[..i] && (k, x) in stored ==> x !in ys[..j]
  }

  /** Two of them, over one inbox, acknowledgements or releases: exactly if their orders
      cross somewhere. */
  lemma TwoDeadlockIffCrossing(s: State, k: Key, xs: seq<Id>, ys: seq<Id>, first: bool, second: bool)
    requires Reachable(s) && s.open == map[]
    ensures CanDeadlock(s, map[0 := Work(k, xs, first), 1 := Work(k, ys, second)])
      <==> exists i, j :: CrossAt(s.stored, k, xs, ys, i, j)
  {
    hide Reachable, CanDeadlock, CrossAt, Crossing, After;
    var works := map[0 := Work(k, xs, first), 1 := Work(k, ys, second)];
    DeadlockIffCrossing(s, works);
    if done, at, chain :| done <= works.Keys && Crossing(After(s, works, done), works - done, at, chain) {
      TwoAreLeft(After(s, works, done), works - done, at, chain);
      NoneCommits(s, works, done);
      CrossingIsCrossAt(s, works, at, chain);
    }
    if i, j :| CrossAt(s.stored, k, xs, ys, i, j) {
      CrossAtIsCrossing(s, works, i, j);
      NoneCommits(s, works, {});
      assert Crossing(After(s, works, {}), works - {}, map[0 := i, 1 := j], [0, 1, 0]);
    }
  }

  /** One statement alone has nobody to wait for. */
  lemma TwoAreLeft(s: State, works: Works, at: map<Tx, nat>, chain: seq<Tx>)
    requires Crossing(s, works, at, chain)
    ensures exists t, u :: t in works && u in works && t != u
  {
    assert Meets(s, works, at, chain[0], chain[0 + 1]);
  }

  lemma NoneCommits(s: State, works: Works, done: set<Tx>)
    requires done <= works.Keys
    requires done == {} || (works.Keys == {0, 1} && exists t, u :: t in works - done && u in works - done && t != u)
    ensures done == {} && After(s, works, done) == s && works - done == works
  {
  }

  lemma CrossingIsCrossAt(s: State, works: Works, at: map<Tx, nat>, chain: seq<Tx>)
    requires works.Keys == {0, 1} && works[0].key == works[1].key && Crossing(s, works, at, chain)
    ensures CrossAt(s.stored, works[0].key, works[0].ids, works[1].ids, at[0], at[1])
  {
    assert Meets(s, works, at, chain[0], chain[0 + 1]);
    assert |chain| > 2;
    assert Meets(s, works, at, chain[1], chain[1 + 1]);
    assert Meets(s, works, at, 0, 1) && Meets(s, works, at, 1, 0);
    assert Visit(s, works[0], at[0]) !! Visit(s, works[1], at[1]);
    forall x | x in works[0].ids[..at[0]] && (works[0].key, x) in s.stored ensures x !in works[1].ids[..at[1]] {
      assert x in Visit(s, works[0], at[0]);
    }
  }

  lemma CrossAtIsCrossing(s: State, works: Works, i: nat, j: nat)
    requires works.Keys == {0, 1} && works[0].key == works[1].key
    requires CrossAt(s.stored, works[0].key, works[0].ids, works[1].ids, i, j)
    ensures Crossing(s, works, map[0 := i, 1 := j], [0, 1, 0])
  {
    var at, chain := map[0 := i, 1 := j], [0, 1, 0];
    assert Visit(s, works[0], i) !! Visit(s, works[1], j);
    assert Meets(s, works, at, 0, 1) && Meets(s, works, at, 1, 0);
  }

  // ---- deadlocks of runs -----------------------------------------------------

  lemma {:induction false} LeadsReaches(works: Works, states: seq<State>, steps: seq<Step>, s: State, i: nat)
    requires Reachable(s) && Schedule(works, states, steps, s) && i < |states|
    ensures Reachable(states[i])
  {
    hide Reachable, Next, Allowed;
    if i > 0 {
      LeadsReaches(works, states, steps, s, i - 1);
      StepReaches(states[i - 1], steps[i - 1], states[i]);
    }
  }

  /** The statements begin one by one. */
  lemma {:induction false} StartIsReached(s: State, works: Works)
    requires Reachable(s) && s.open == map[]
    ensures Reachable(At(s, works, Start(works)))
    decreases works.Keys
  {
    hide Reachable;
    var after := At(s, works, Start(works));
    if works == map[] {
      assert after == s;
    } else {
      var t :| t in works;
      var w, others := works[t], works - {t};
      StartIsReached(s, others);
      var before := At(s, others, Start(others));
      assert Visit(s, w, 0) == {};
      assert after.open == before.open[t := AfterRows(s, w, 0)];
      StepReaches(before, if w.deletes then BeginAck(t, w.key, w.ids) else BeginMarking(t, w.key, w.ids, true), after);
    }
  }

  /** So a deadlock is one of a run. */
  lemma DeadlockIsReached(s: State, works: Works)
    requires Reachable(s) && s.open == map[] && CanDeadlock(s, works)
    ensures exists s', chain :: Reachable(s') && Cycle(s', chain)
  {
    hide Reachable, Cycle, At, Schedule;
    StartIsReached(s, works);
    var s', chain :| Leads(works, At(s, works, Start(works)), s') && Cycle(s', chain);
    LeadsToReachable(works, At(s, works, Start(works)), s');
  }

  lemma LeadsToReachable(works: Works, s: State, s': State)
    requires Reachable(s) && Leads(works, s, s')
    ensures Reachable(s')
  {
    hide Reachable, Next, Allowed;
    var states, steps :| Schedule(works, states, steps, s) && states[|steps|] == s';
    LeadsReaches(works, states, steps, s, |steps|);
  }

  /** And where the orders cross from the start, it is over just those messages. */
  lemma CrossingIsReached(s: State, works: Works, at: map<Tx, nat>, chain: seq<Tx>)
    requires Reachable(s) && s.open == map[] && Crossing(s, works, at, chain)
    ensures Reachable(At(s, works, at)) && Cycle(At(s, works, at), chain)
  {
    hide Reachable, At, Disjoint, Meets, Cycle, Leads;
    StartIsReached(s, works);
    LeadsItself(works, At(s, works, Start(works)));
    AllAdvance(works, At(s, works, Start(works)), s, works, at);
    LeadsToReachable(works, At(s, works, Start(works)), At(s, works, at));
    CrossingIsCycle(s, works, at, chain);
  }

  /** A transaction that is alone waits for nobody. */
  lemma StatementAlone(s: State, t: Tx, e: Enqueue)
    requires Reachable(s.(open := map[t := AnEnqueue(e)])) && !e.stage.Ready? && EnqueueStatement(s, e).Some?
    ensures Reachable(s.(open := map[t := AnEnqueue(EnqueueStatement(s, e).value)]))
  {
    hide Reachable, EnqueueStatement;
    var before, after := s.(open := map[t := AnEnqueue(e)]), s.(open := map[t := AnEnqueue(EnqueueStatement(s, e).value)]);
    SameStatement(s, before, e);
    assert before.open[t := AnEnqueue(EnqueueStatement(s, e).value)] == after.open;
    assert !Blocked(before, t);
    StepReaches(before, Statement(t), after);
  }

  lemma SameStatement(s: State, s': State, e: Enqueue)
    requires s' == s.(open := s'.open)
    ensures EnqueueStatement(s, e) == EnqueueStatement(s', e)
  {
  }

  /** An enqueue to one inbox, by itself. */
  lemma StoresOne(s: State, t: Tx, id: Id, k: Key)
    requires Reachable(s) && s.open == map[] && id !in s.used && 0 <= Base(s, k) < s.maxRequests < USIZE
    requires (k, id) !in s.stored
    ensures Reachable(s.(counts := s.counts[k := Base(s, k) + 1], stored := s.stored + {(k, id)}, used := s.used + {id}))
  {
    hide Reachable;
    var u := s.(used := s.used + {id});
    assert [k][..0] == [] && FirstOccurrences([k]) == [k] && Sort([k]) == [k];
    var e := Enqueue(id, [k], [k], Ensure(0), {}, {}, map[], []);
    StepReaches(s, BeginEnqueue(t, id, [k]), u.(open := map[t := AnEnqueue(e)]));
    var ready := ToTheEnd(u, t, e);
    var end := u.(open := map[t := AnEnqueue(ready)]);
    var after := Committed(end, AnEnqueue(ready)).(open := end.open - {t});
    StepReaches(end, Commit(t), after);
    assert EnqueuedRows(ready) == {(k, id)};
    assert s.counts + ready.pending == s.counts[k := Base(s, k) + 1];
    assert after == s.(counts := s.counts[k := Base(s, k) + 1], stored := s.stored + {(k, id)}, used := s.used + {id});
  }

  lemma ToTheEnd(s: State, t: Tx, e: Enqueue) returns (ready: Enqueue)
    requires |e.to| == 1 && e == Enqueue(e.id, e.to, e.to, Ensure(0), {}, {}, map[], [])
    requires 0 <= Base(s, e.to[0]) < s.maxRequests < USIZE && (e.to[0], e.id) !in s.stored
    requires Reachable(s.(open := map[t := AnEnqueue(e)]))
    ensures Reachable(s.(open := map[t := AnEnqueue(ready)]))
    ensures ready.id == e.id && ready.stage == Ready && ready.inserted == e.to && ready.pending == map[e.to[0] := Base(s, e.to[0]) + 1]
  {
    hide Reachable;
    var locked := ToTheInsert(s, t, e);
    StatementAlone(s, t, locked);
    var e1 := locked.(stage := Insert(1), inserted := e.to);
    assert locked.inserted + [e.to[0]] == e.to;
    assert EnqueueStatement(s, locked) == Some(e1);
    StatementAlone(s, t, e1);
    ready := FromTheBump(s, t, e1.(stage := Bump(0)));
  }

  /** The two passes. */
  lemma ToTheInsert(s: State, t: Tx, e: Enqueue) returns (locked: Enqueue)
    requires |e.to| == 1 && e == Enqueue(e.id, e.to, e.to, Ensure(0), {}, {}, map[], [])
    requires 0 <= Base(s, e.to[0]) < s.maxRequests < USIZE
    requires Reachable(s.(open := map[t := AnEnqueue(e)]))
    ensures Reachable(s.(open := map[t := AnEnqueue(locked)]))
    ensures locked == e.(stage := Insert(0), made := locked.made, held := locked.held, pending := locked.pending)
    ensures Counter(s, locked.pending, e.to[0]) == Base(s, e.to[0]) && locked.pending.Keys <= {e.to[0]}
  {
    hide Reachable;
    var k := e.to[0];
    StatementAlone(s, t, e);
    var e1 := EnqueueStatement(s, e).value;
    StatementAlone(s, t, e1);
    var e2 := e1.(stage := Lock(0));
    assert Counter(s, e2.pending, k) == Base(s, k);
    StatementAlone(s, t, e2);
    var e3 := e2.(stage := Lock(1), held := e2.held + {k});
    assert EnqueueStatement(s, e2) == Some(e3);
    StatementAlone(s, t, e3);
    locked := e3.(stage := Insert(0));
  }

  lemma FromTheBump(s: State, t: Tx, e: Enqueue) returns (ready: Enqueue)
    requires e.stage == Bump(0) && |e.to| == 1 && e.inserted == e.to && e.pending.Keys <= {e.to[0]}
    requires Counter(s, e.pending, e.to[0]) == Base(s, e.to[0])
    requires Reachable(s.(open := map[t := AnEnqueue(e)]))
    ensures Reachable(s.(open := map[t := AnEnqueue(ready)]))
    ensures ready == e.(stage := Ready, pending := map[e.to[0] := Base(s, e.to[0]) + 1])
  {
    hide Reachable;
    var bumped := e.(stage := Bump(1), pending := map[e.to[0] := Base(s, e.to[0]) + 1]);
    StatementAlone(s, t, e);
    assert e.pending[e.to[0] := Base(s, e.to[0]) + 1] == bumped.pending;
    assert EnqueueStatement(s, e) == Some(bumped);
    StatementAlone(s, t, bumped);
    ready := bumped.(stage := Ready);
  }

  /** Commits matter: of three acknowledgements of x, of x, a and b, and of x, b and a, no
      orders cross, and yet the last two deadlock once the first has removed x. */
  lemma ThirdUncovers(s: State, k: Key, x: Id, a: Id, b: Id)
    requires Reachable(s) && s.open == map[] && x != a && x != b && a != b
    requires (k, x) in s.stored && (k, a) in s.stored && (k, b) in s.stored
    ensures var works := map[0 := Work(k, [x], true), 1 := Work(k, [x, a, b], true), 2 := Work(k, [x, b, a], true)];
      CanDeadlock(s, works) && forall at, chain :: !Crossing(s, works, at, chain)
  {
    hide Reachable, CanDeadlock, After;
    var works := map[0 := Work(k, [x], true), 1 := Work(k, [x, a, b], true), 2 := Work(k, [x, b, a], true)];
    FirstRemoves(s, works, k, x, a, b);
    UncoveredCross(After(s, works, {0}), works - {0}, k, x, a, b);
    DeadlockIffCrossing(s, works);
    forall at, chain ensures !Crossing(s, works, at, chain) {
      CoveredDoNotCross(s, works, k, x, at, chain);
    }
  }

  lemma FirstRemoves(s: State, works: Works, k: Key, x: Id, a: Id, b: Id)
    requires x != a && x != b && (k, a) in s.stored && (k, b) in s.stored
    requires 0 in works && works[0] == Work(k, [x], true)
    ensures var s' := After(s, works, {0}); (k, x) !in s'.stored && (k, a) in s'.stored && (k, b) in s'.stored
  {
    assert Deletes(works, 0, (k, x));
  }

  lemma UncoveredCross(s: State, works: Works, k: Key, x: Id, a: Id, b: Id)
    requires x != a && x != b && a != b && (k, x) !in s.stored && (k, a) in s.stored && (k, b) in s.stored
    requires works == map[1 := Work(k, [x, a, b], true), 2 := Work(k, [x, b, a], true)]
    ensures Crossing(s, works, map[1 := 2, 2 := 2], [1, 2, 1])
  {
    var at, chain := map[1 := 2, 2 := 2], [1, 2, 1];
    assert [x, a, b][..2] == [x, a] && [x, b, a][..2] == [x, b];
    assert Visit(s, works[1], 2) == {a} && Visit(s, works[2], 2) == {b};
    assert Meets(s, works, at, 1, 2) && Meets(s, works, at, 2, 1);
  }

  lemma CircleHasMoved(s: State, works: Works, at: map<Tx, nat>, chain: seq<Tx>)
    requires Crossing(s, works, at, chain)
    ensures chain[0] in works && chain[1] in works && chain[0] != chain[1] && at[chain[0]] > 0 && at[chain[1]] > 0
  {
    var last := |chain| - 2;
    assert Meets(s, works, at, chain[0], chain[0 + 1]);
    assert Meets(s, works, at, chain[last], chain[last + 1]);
  }

  lemma OnlyOneHasMoved(s: State, works: Works, k: Key, x: Id, at: map<Tx, nat>, t: Tx, u: Tx)
    requires (k, x) in s.stored && Within(works, at) && Disjoint(s, works, at)
    requires forall v :: v in works ==> works[v].key == k && works[v].ids != [] && works[v].ids[0] == x
    requires t in works && u in works && at[t] > 0 && at[u] > 0
    ensures t == u
  {
    assert works[t].ids[..at[t]][0] == x && works[u].ids[..at[u]][0] == x;
    assert x in Visit(s, works[t], at[t]) && x in Visit(s, works[u], at[u]);
  }

  /** Orders that all begin with the same stored message do not cross: only one of them
      can have anything behind it. */
  lemma CoveredDoNotCross(s: State, works: Works, k: Key, x: Id, at: map<Tx, nat>, chain: seq<Tx>)
    requires (k, x) in s.stored
    requires forall t :: t in works ==> works[t].key == k && works[t].ids != [] && works[t].ids[0] == x
    ensures !Crossing(s, works, at, chain)
  {
    if Crossing(s, works, at, chain) {
      CircleHasMoved(s, works, at, chain);
      OnlyOneHasMoved(s, works, k, x, at, chain[0], chain[1]);
    }
  }

  /** The smallest case: two acknowledgements of the same two messages in opposite
      orders come to wait for each other. */
  lemma OppositeOrdersDeadlock(k: Key, a: Id, b: Id, maxRequests: nat)
    requires a != b && 2 <= maxRequests < USIZE
    ensures exists s :: Reachable(s) && s.maxRequests == maxRequests && WaitsForRow(s, 0, b, 1) && WaitsForRow(s, 1, a, 0)
  {
    hide Reachable;
    var s0 := State(map[], {}, map[], {}, maxRequests);
    Starts(s0);
    StoresOne(s0, 0, a, k);
    var s1 := State(map[k := 1], {(k, a)}, map[], {a}, maxRequests);
    assert {} + {(k, a)} == {(k, a)} && {} + {a} == {a};
    assert s1 == s0.(counts := s0.counts[k := Base(s0, k) + 1], stored := s0.stored + {(k, a)}, used := s0.used + {a});
    StoresOne(s1, 0, b, k);
    var s := s1.(counts := s1.counts[k := Base(s1, k) + 1], stored := s1.stored + {(k, b)}, used := s1.used + {b});
    var works := map[0 := Work(k, [a, b], true), 1 := Work(k, [b, a], true)];
    OppositeCross(s, works, k, a, b);
    CrossingIsReached(s, works, map[0 := 1, 1 := 1], [0, 1, 0]);
    assert Reachable(At(s, works, map[0 := 1, 1 := 1]));
  }

  lemma Starts(s: State)
    requires Initial(s)
    ensures Reachable(s)
  {
    assert Run([s], []);
  }

  lemma OppositeCross(s: State, works: Works, k: Key, a: Id, b: Id)
    requires a != b && (k, a) in s.stored && (k, b) in s.stored
    requires works == map[0 := Work(k, [a, b], true), 1 := Work(k, [b, a], true)]
    ensures Crossing(s, works, map[0 := 1, 1 := 1], [0, 1, 0])
    ensures var s' := At(s, works, map[0 := 1, 1 := 1]); WaitsForRow(s', 0, b, 1) && WaitsForRow(s', 1, a, 0)
  {
    assert [a, b][..1] == [a] && [b, a][..1] == [b];
    CrossAtIsCrossing(s, works, 1, 1);
    assert a in Visit(s, works[0], 1) && b in Visit(s, works[1], 1);
  }
}
