/** When a claiming long poll can miss a message: exactly when it skips one. */
module MissedWakeups {
  import opened Wrappers
  import opened Broadcast
  import opened InboxRows
  import opened InboxTable
  import opened Claims
  import opened LongPolls
  import MessageIds

  // ---- continuations of a run ------------------------------------------------

  /** Nothing fails: no rollback, no lost connection, no deadline. */
  ghost predicate Smooth(step: Step) { !step.Rollback? && !step.Leave? && !step.Timeout? }

  ghost predicate PathBetween(states: seq<State>, steps: seq<Step>, s: State, s': State, smooth: bool) {
    && |states| == |steps| + 1 && states[0] == s && states[|steps|] == s'
    && (forall i :: 0 <= i < |steps| ==> Next(states[i], steps[i], states[i + 1]))
    && (smooth ==> forall i :: 0 <= i < |steps| ==> Smooth(steps[i]))
  }

  /** Some steps lead from one state to the other, with nothing failing if `smooth`. */
  ghost predicate Reaches(s: State, s': State, smooth: bool) {
    exists states, steps :: PathBetween(states, steps, s, s', smooth)
  }

  lemma ReachesItself(s: State, smooth: bool)
    ensures Reaches(s, s, smooth)
  {
    assert PathBetween([s], [], s, s, smooth);
  }

  lemma StepThen(s: State, step: Step, s': State, s'': State, smooth: bool)
    requires Next(s, step, s') && Reaches(s', s'', smooth) && (smooth ==> Smooth(step))
    ensures Reaches(s, s'', smooth)
  {
    hide Next;
    var states, steps :| PathBetween(states, steps, s', s'', smooth);
    assert PathBetween([s] + states, [step] + steps, s, s'', smooth);
  }

  lemma ThenStep(s: State, s': State, step: Step, s'': State, smooth: bool)
    requires Reaches(s, s', smooth) && Next(s', step, s'') && (smooth ==> Smooth(step))
    ensures Reaches(s, s'', smooth)
  {
    hide Next;
    var states, steps :| PathBetween(states, steps, s, s', smooth);
    assert PathBetween(states + [s''], steps + [step], s, s'', smooth);
  }

  lemma {:induction false} ReachesThrough(s: State, s': State, s'': State, smooth: bool)
    requires Reaches(s, s', smooth) && Reaches(s', s'', smooth)
    ensures Reaches(s, s'', smooth)
  {
    hide Next;
    var a, x :| PathBetween(a, x, s, s', smooth);
    var b, y :| PathBetween(b, y, s', s'', smooth);
    var states, steps := a[..|x|] + b, x + y;
    forall i | 0 <= i < |steps| ensures Next(states[i], steps[i], states[i + 1]) {
      if i >= |x| { assert Next(b[i - |x|], y[i - |x|], b[i - |x| + 1]); }
    }
    assert PathBetween(states, steps, s, s'', smooth);
  }

  // ---- exactly when ----------------------------------------------------------

  /** A poll that is about to lock a message that is ready as of its look. */
  ghost predicate AtRow(s: State, n: Name, id: Id) {
    && n in s.polls && s.polls[n].claims && s.polls[n].stage.Looking? && id in s.polls[n].stage.seen
    && Available(s, s.polls[n], id) && !Signalled(s, s.polls[n])
  }

  /** After the poll's attempt to lock the message some continuation misses it. */
  ghost predicate CanMiss(s: State, n: Name, id: Id) {
    exists s', s'' :: Next(s, TryRow(n, id), s') && Reaches(s', s'', false) && Missed(s'', n, id)
  }

  lemma {:induction false} EndedStays(states: seq<State>, steps: seq<Step>, s: State, s': State, n: Name, i: nat)
    requires PathBetween(states, steps, s, s', false) && i < |states|
    requires n in s.polls && s.polls[n].stage == Ended
    ensures n in states[i].polls && states[i].polls[n].stage == Ended
  {
    if i > 0 {
      EndedStays(states, steps, s, s', n, i - 1);
      EndedStep(states[i - 1], steps[i - 1], states[i], n);
    }
  }

  lemma EndedPollStays(s: State, step: Step, p: Poll, s': State)
    requires OfPoll(step) && Polls(s, step, step.n, p, s') && p.stage == Ended
    ensures step.n in s'.polls && s'.polls[step.n].stage == Ended
  {
  }

  lemma EndedStep(s: State, step: Step, s': State, n: Name)
    requires Next(s, step, s') && n in s.polls && s.polls[n].stage == Ended
    ensures n in s'.polls && s'.polls[n].stage == Ended
  {
    if OfPoll(step) {
      PollsTouchThemselves(s, step, s');
      if step.n == n { EndedPollStays(s, step, s.polls[n], s'); }
      hide Next;
    } else {
      hide Polls, Candidates, Ready, Lease, Unlease, Remove, Chosen, Locked, Push;
    }
  }

  /** The poll has skipped the message behind `t`, and has other rows to try. */
  ghost predicate Behind(s: State, n: Name, id: Id, t: Name) {
    && Exclusive(s) && id in Locked(s, t)
    && n in s.polls && s.polls[n].claims && s.polls[n].stage.Looking?
    && Available(s, s.polls[n], id) && !Signalled(s, s.polls[n])
  }

  /** From there it can fall asleep, whatever it still has to try, and `t` roll back. */
  lemma {:induction false} FallsAsleep(s: State, n: Name, id: Id, t: Name) returns (s': State)
    requires Behind(s, n, id, t) && id !in s.polls[n].stage.seen
    ensures Reaches(s, s', false) && Missed(s', n, id)
    decreases if n in s.polls && s.polls[n].stage.Looking? then s.polls[n].stage.seen else {}
  {
    hide Reaches, Exclusive;
    var p := s.polls[n];
    if p.stage.seen == {} {
      s' := LastSteps(s, n, id, t);
    } else {
      var x :| x in p.stage.seen;
      var between := if x in s.table && (forall u :: x !in Locked(s, u)) then s.(locks := s.locks[t := Locked(s, t) + [x]]) else s;
      if between != s { NextKeepsExclusive(s, LockRow(t, x), between); }
      var q := p.(stage := Looking(p.stage.seen - {x}),
                  skipped := if exists u :: x in Locked(between, u) then p.skipped + {x} else p.skipped);
      var tried := SetPoll(between, n, q);
      TriesOther(s, n, id, t, x, between, tried);
      s' := FallsAsleep(tried, n, id, t);
      StepThen(between, TryRow(n, x), tried, s', false);
      if between != s { StepThen(s, LockRow(t, x), between, s', false); }
    }
  }

  lemma TriesOther(s: State, n: Name, id: Id, t: Name, x: Id, between: State, tried: State)
    requires Behind(s, n, id, t) && x in s.polls[n].stage.seen && x != id
    requires between == if x in s.table && (forall u :: x !in Locked(s, u)) then s.(locks := s.locks[t := Locked(s, t) + [x]]) else s
    requires Exclusive(between)
    requires var p := s.polls[n]; tried == SetPoll(between, n, p.(stage := Looking(p.stage.seen - {x}),
                  skipped := if exists u :: x in Locked(between, u) then p.skipped + {x} else p.skipped))
    ensures between != s ==> Next(s, LockRow(t, x), between)
    ensures Next(between, TryRow(n, x), tried) && Behind(tried, n, id, t)
  {
    if between != s { assert x in Locked(between, t); }
    assert forall u :: Locked(tried, u) == Locked(between, u);
  }

  lemma LastSteps(s: State, n: Name, id: Id, t: Name) returns (s': State)
    requires Behind(s, n, id, t) && s.polls[n].stage.seen == {}
    ensures Reaches(s, s', false) && Missed(s', n, id)
  {
    hide Reaches;
    var asleep := SetPoll(s, n, s.polls[n].(stage := Asleep));
    s' := asleep.(locks := asleep.locks - {t});
    ReachesItself(s', false);
    StepThen(asleep, Rollback(t), s', s', false);
    StepThen(s, Sleep(n), asleep, s', false);
    forall u ensures id !in Locked(s', u) {
      assert u != t ==> Locked(s', u) == Locked(s, u);
    }
  }

  /** The exact condition, at the branch that decides, in every reachable state: a claiming
      poll with nothing on its way to it can come to miss a ready message that it is about
      to try if and only if another transaction has the message locked at that moment. */
  lemma MissedIffLocked(states: seq<State>, steps: seq<Step>, i: nat, n: Name, id: Id)
    requires Run(states, steps) && i < |states| && AtRow(states[i], n, id)
    ensures (exists t :: id in Locked(states[i], t)) <==> CanMiss(states[i], n, id)
  {
    hide CanMiss, AtRow, Run, PollsGood;
    var s := states[i];
    RunKeepsInvariant(states, steps, i);
    if t :| id in Locked(s, t) {
      LockedCanBeMissed(s, n, id, t);
    } else {
      UnlockedIsTaken(s, n, id);
    }
  }

  lemma LockedCanBeMissed(s: State, n: Name, id: Id, t: Name)
    requires Exclusive(s) && AtRow(s, n, id) && id in Locked(s, t)
    ensures CanMiss(s, n, id)
  {
    var p := s.polls[n];
    var skipped := SetPoll(s, n, p.(stage := Looking(p.stage.seen - {id}), skipped := p.skipped + {id}));
    assert forall u :: Locked(skipped, u) == Locked(s, u);
    assert Next(s, TryRow(n, id), skipped);
    var s'' := FallsAsleep(skipped, n, id, t);
  }

  lemma UnlockedIsTaken(s: State, n: Name, id: Id)
    requires AtRow(s, n, id) && forall t :: id !in Locked(s, t)
    ensures !CanMiss(s, n, id)
  {
    forall s', s'' | Next(s, TryRow(n, id), s') && Reaches(s', s'', false) ensures !Missed(s'', n, id) {
      assert s'.polls[n].stage == Ended;
      var states, steps :| PathBetween(states, steps, s', s'', false);
      EndedStays(states, steps, s', s'', n, |steps|);
    }
  }

  // ---- two runs --------------------------------------------------------------

  ghost function Empty(key: Key): State { State(key, map[], 0, map[], map[], multiset{}) }

  function TableOf(rows: seq<Row>): Table {
    if rows == [] then map[]
    else TableOf(rows[..|rows| - 1])[rows[|rows| - 1].id := Stored(rows[|rows| - 1], None)]
  }

  lemma {:induction false} TableHas(rows: seq<Row>)
    requires DistinctIds(rows)
    ensures forall id :: id in TableOf(rows) <==> id in Ids(rows)
    ensures forall i :: 0 <= i < |rows| ==> rows[i].id in TableOf(rows) && TableOf(rows)[rows[i].id] == Stored(rows[i], None)
  {
    if rows != [] {
      var n := |rows| - 1;
      TableHas(rows[..n]);
      assert Ids(rows) == Ids(rows[..n]) + [rows[n].id];
      assert rows[..n] + [rows[n]] == rows;
    }
  }

  /** The rows are stored, and their notifications sent to nobody. */
  lemma {:induction false} StoreAll(key: Key, rows: seq<Row>)
    requires DistinctIds(rows)
    ensures Reaches(Empty(key), Empty(key).(table := TableOf(rows)), true)
  {
    var s := Empty(key).(table := TableOf(rows));
    if rows == [] {
      ReachesItself(s, true);
    } else {
      var n := |rows| - 1;
      StoreAll(key, rows[..n]);
      TableHas(rows[..n]);
      var before := Empty(key).(table := TableOf(rows[..n]));
      var stored := s.(pending := multiset{key});
      assert rows[n].id !in before.table;
      assert before.pending + multiset{key} + multiset{} == stored.pending;
      assert Next(before, Enqueue(rows[n], multiset{}), stored);
      ThenStep(Empty(key), before, Enqueue(rows[n], multiset{}), stored, true);
      assert stored.pending - multiset{key} == multiset{};
      assert Next(stored, Send(key), s);
      ThenStep(Empty(key), stored, Send(key), s, true);
    }
  }

  function LockedByZero(rows: seq<Row>): map<Name, seq<Id>> { if rows == [] then map[] else map[0 := Ids(rows)] }

  /** Another transaction locks all of them. */
  lemma {:induction false} LockAll(s: State, rows: seq<Row>, k: nat)
    requires k <= |rows| && s.locks == map[] && forall i :: 0 <= i < |rows| ==> rows[i].id in s.table
    ensures Reaches(s, s.(locks := LockedByZero(rows[..k])), true)
  {
    if k == 0 {
      ReachesItself(s, true);
    } else {
      LockAll(s, rows, k - 1);
      var before, after := s.(locks := LockedByZero(rows[..k - 1])), s.(locks := LockedByZero(rows[..k]));
      assert Locked(before, 0) + [rows[k - 1].id] == Ids(rows[..k]);
      assert after == before.(locks := before.locks[0 := Ids(rows[..k])]);
      ThenStep(s, before, LockRow(0, rows[k - 1].id), after, true);
    }
  }

  /** A poll whose rows are all locked skips them all and sleeps. */
  lemma {:induction false} SkipsAll(s: State, n: Name) returns (s': State)
    requires n in s.polls && s.polls[n].stage.Looking?
    requires forall x :: x in s.polls[n].stage.seen ==> x in Locked(s, 0)
    ensures Reaches(s, s', true)
    ensures s' == SetPoll(s, n, s.polls[n].(stage := Asleep, skipped := s.polls[n].skipped + s.polls[n].stage.seen))
    decreases if n in s.polls && s.polls[n].stage.Looking? then s.polls[n].stage.seen else {}
  {
    hide Reaches;
    var p := s.polls[n];
    if p.stage.seen == {} {
      s' := SetPoll(s, n, p.(stage := Asleep));
      assert p.skipped + p.stage.seen == p.skipped;
      ReachesItself(s', true);
      StepThen(s, Sleep(n), s', s', true);
    } else {
      var x :| x in p.stage.seen;
      var tried := SetPoll(s, n, p.(stage := Looking(p.stage.seen - {x}), skipped := p.skipped + {x}));
      assert Locked(tried, 0) == Locked(s, 0);
      s' := SkipsAll(tried, n);
      assert Next(s, TryRow(n, x), tried);
      StepThen(s, TryRow(n, x), tried, s', true);
      assert (p.skipped + {x}) + (p.stage.seen - {x}) == p.skipped + p.stage.seen;
    }
  }

  /** The messages are stored, another transaction has locked them all, and a claiming
      poll sleeps because it has skipped them. */
  ghost function SkippedAll(key: Key, rows: seq<Row>): State {
    State(key, TableOf(rows), 0, LockedByZero(rows),
          map[1 := Poll(true, None, Receiver([], false), Asleep, 0, set id | id in Ids(rows))], multiset{})
  }

  lemma ReachesSkippedAll(key: Key, rows: seq<Row>)
    requires DistinctIds(rows) && rows != []
    ensures Reaches(Empty(key), SkippedAll(key, rows), true)
  {
    hide Reaches;
    var stored := Empty(key).(table := TableOf(rows));
    StoreAll(key, rows);
    TableHas(rows);
    assert rows[..|rows|] == rows;
    LockAll(stored, rows, |rows|);
    var locked := stored.(locks := LockedByZero(rows));
    ReachesThrough(Empty(key), stored, locked, true);
    ThenLooks(key, rows, locked);
  }

  lemma ThenLooks(key: Key, rows: seq<Row>, locked: State)
    requires DistinctIds(rows) && rows != [] && locked == Empty(key).(table := TableOf(rows), locks := LockedByZero(rows))
    requires Reaches(Empty(key), locked, true)
    ensures Reaches(Empty(key), SkippedAll(key, rows), true)
  {
    hide Reaches, TableOf;
    TableHas(rows);
    var poll := Poll(true, None, Receiver([], false), Trying, 0, {});
    var arrived := SetPoll(locked, 1, poll);
    assert Next(locked, Arrive(1, true, None), arrived);
    ThenStep(Empty(key), locked, Arrive(1, true, None), arrived, true);
    var ids := set id | id in Ids(rows);
    var found := set id | id in arrived.table && Wanted(arrived.table[id], arrived.now, poll);
    forall id ensures id in ids <==> id in found {
      if id in Ids(rows) { var i :| 0 <= i < |rows| && rows[i].id == id; }
    }
    assert found == ids;
    var looking := SetPoll(arrived, 1, poll.(stage := Looking(ids)));
    assert Next(arrived, Look(1), looking);
    ThenStep(Empty(key), arrived, Look(1), looking, true);
    assert Locked(looking, 0) == Ids(rows);
    var asleep := SkipsAll(looking, 1);
    assert {} + ids == ids;
    assert asleep.polls == SkippedAll(key, rows).polls;
    ReachesThrough(Empty(key), looking, asleep, true);
  }

  /** A message is missed after the transaction that had it locked has rolled back. */
  lemma SkippedRowIsMissed(key: Key, row: Row)
    ensures Initial(Empty(key)) && exists s :: Reaches(Empty(key), s, false) && Missed(s, 1, row.id)
  {
    hide Reaches;
    var before := SkippedAll(key, [row]);
    ReachesSkippedAll(key, [row]);
    Anyhow(Empty(key), before);
    var s := before.(locks := before.locks - {0});
    assert Next(before, Rollback(0), s);
    ThenStep(Empty(key), before, Rollback(0), s, false);
    TableHas([row]);
    assert Ids([row]) == [row.id];
    assert [row][0] == row;
    assert Missed(s, 1, row.id);
  }

  lemma Anyhow(s: State, s': State)
    requires Reaches(s, s', true)
    ensures Reaches(s, s', false)
  {
    var states, steps :| PathBetween(states, steps, s, s', true);
    assert PathBetween(states, steps, s, s', false);
  }

  /** And with no failure at all: a claim has locked more messages than a response has room
      for, a second claim skips them all and sleeps, and the first commits.  The last
      message is missed. */
  lemma LargeBacklogIsMissed(key: Key, rows: seq<Row>)
    requires rows != [] && InOrder(rows) && DistinctIds(rows) && TotalCost(rows) > BUDGET
    ensures Initial(Empty(key)) && exists s :: Reaches(Empty(key), s, true) && Missed(s, 1, rows[|rows| - 1].id)
  {
    hide Reaches, Chosen, TotalCost;
    var before := SkippedAll(key, rows);
    ReachesSkippedAll(key, rows);
    var s := before.(table := Lease(before.table, Ids(Chosen(rows)), RECOVERY), locks := before.locks - {0});
    CommitsOthers(key, rows, before, s);
    ThenStep(Empty(key), before, CommitClaim(0, rows, 0), s, true);
  }

  lemma CommitsOthers(key: Key, rows: seq<Row>, before: State, s: State)
    requires InOrder(rows) && DistinctIds(rows) && TotalCost(rows) > BUDGET && rows != []
    requires before == SkippedAll(key, rows)
    requires s == before.(table := Lease(before.table, Ids(Chosen(rows)), RECOVERY), locks := before.locks - {0})
    ensures Next(before, CommitClaim(0, rows, 0), s) && Missed(s, 1, rows[|rows| - 1].id)
  {
    hide TableOf, Chosen, TotalCost, Earlier, InOrder;
    TableHas(rows);
    LastIsLeftOut(rows);
    CommitStep(rows, before, s);
    var last := rows[|rows| - 1];
    assert Ids(rows)[|rows| - 1] == last.id;
    assert Lease(before.table, Ids(Chosen(rows)), RECOVERY)[last.id] == Stored(last, None);
    assert forall t :: Locked(s, t) == [];
  }

  lemma CommitStep(rows: seq<Row>, before: State, s: State)
    requires InOrder(rows) && DistinctIds(rows) && rows != []
    requires before.table == TableOf(rows) && before.locks == LockedByZero(rows)
    requires s == before.(table := Lease(before.table, Ids(Chosen(rows)), RECOVERY), locks := before.locks - {0})
    ensures Next(before, CommitClaim(0, rows, 0), s)
  {
    hide TableOf, Chosen, Earlier, InOrder, Lease;
    TableHas(rows);
    assert Locked(before, 0) == Ids(rows);
    forall r | r in rows ensures r.id in before.table && before.table[r.id].row == r {
      var i :| 0 <= i < |rows| && rows[i] == r;
    }
  }

  lemma LastIsLeftOut(rows: seq<Row>)
    requires DistinctIds(rows) && TotalCost(rows) > BUDGET && rows != []
    ensures rows[|rows| - 1].id !in Ids(Chosen(rows))
  {
    hide TotalCost, Chosen;
    ChosenFit(rows);
    PrefixChosen(rows);
    var chosen := Chosen(rows);
    assert |chosen| == |rows| ==> chosen == rows;
    forall i | 0 <= i < |chosen| ensures Ids(chosen)[i] != rows[|rows| - 1].id {
      assert chosen[i] == rows[i];
    }
  }

  lemma {:induction false} LargeCost(rows: seq<Row>)
    requires forall r :: r in rows ==> Storable(r) && |r.sealed| == MAX_CAPTURE_BYTES + SEAL_BYTES
    ensures 87_514 * |rows| <= TotalCost(rows) <= 87_538 * |rows|
  {
    if rows != [] {
      var n := |rows| - 1;
      LargeCost(rows[..n]);
      assert rows[n] in rows;
      StorableId(rows[n]);
      hide Storable;
    }
  }

  /** Of messages of the greatest size twelve are such a backlog, and eleven are not. */
  lemma TwelveAreTooMany(rows: seq<Row>)
    requires forall r :: r in rows ==> Storable(r) && |r.sealed| == MAX_CAPTURE_BYTES + SEAL_BYTES
    ensures TotalCost(rows) > BUDGET <==> |rows| >= 12
  {
    hide Storable, TotalCost;
    LargeCost(rows);
  }

  /** Messages of the greatest size, as one process stores them. */
  function LargeMessages(started: nat, n: nat): (rows: seq<Row>)
    ensures |rows| == n
    ensures forall i :: 0 <= i < n ==> rows[i] == Row(i, MessageIds.MessageId(started, i), seq(MAX_CAPTURE_BYTES + SEAL_BYTES, _ => 0))
  {
    seq(n, i requires 0 <= i < n => Row(i, MessageIds.MessageId(started, i), seq(MAX_CAPTURE_BYTES + SEAL_BYTES, _ => 0)))
  }

  lemma LargeMessagesAreStorable(started: nat, n: nat)
    requires n <= MessageIds.U64
    ensures var rows := LargeMessages(started, n);
      InOrder(rows) && DistinctIds(rows) && forall r :: r in rows ==> Storable(r) && |r.sealed| == MAX_CAPTURE_BYTES + SEAL_BYTES
  {
    hide MessageIds.MessageId;
    var rows := LargeMessages(started, n);
    forall i, j | 0 <= i < j < n ensures rows[i].id != rows[j].id {
      MessageIds.IdsAreDistinct(started, i, started, j);
    }
    forall r | r in rows ensures Storable(r) && |r.sealed| == MAX_CAPTURE_BYTES + SEAL_BYTES {
      var i :| 0 <= i < n && rows[i] == r;
      MessageIds.IdIsValid(started, i);
    }
  }

  /** So such a run exists with messages that the server itself stores. */
  lemma StoredBacklogIsMissed(key: Key, started: nat)
    ensures exists rows: seq<Row>, s ::
      |rows| == 12 && (forall r :: r in rows ==> Storable(r))
      && Reaches(Empty(key), s, true) && Missed(s, 1, rows[11].id)
  {
    hide Reaches, TotalCost, Storable, Missed;
    var rows := LargeMessages(started, 12);
    LargeMessagesAreStorable(started, 12);
    TwelveAreTooMany(rows);
    LargeBacklogIsMissed(key, rows);
  }
}
