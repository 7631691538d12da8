/** Long polls of one inbox: they subscribe, look, and sleep until a notification or
    their deadline.  Everything else that works on the inbox locks rows one by one and
    commits; enqueues and releases send a notification after their commit.

    A peek looks at one snapshot.  A claim finds the ready messages of a snapshot and
    then tries to lock them one by one, skipping those that another transaction has
    locked and testing the newest version of the others.  Another claim leases, of the
    rows it has locked, those that its response has room for, and commits; the rows were
    ready when it started, and its leases run from then. */
module LongPolls {
  import opened Wrappers
  import opened Broadcast
  import opened StringOrder
  import opened InboxRows
  import opened InboxTable
  import opened Claims
  import opened Cursors
  import opened Paging

  type Key = string
  type Name = nat

  /** `seen` are the messages that a claim has yet to lock. */
  datatype Stage =
    | Trying
    | Looking(seen: set<Id>)
    | Asleep
    | Ended

  /** `looked` is when the poll's last look began, `skipped` are the messages that a claim
      found locked then. */
  datatype Poll = Poll(claims: bool, cursor: Option<Cursor>, rx: Receiver<Key>, stage: Stage, looked: Time, skipped: set<Id>)

  /** `locks` are the rows that other transactions hold. */
  datatype State = State(key: Key, table: Table, now: Time, locks: map<Name, seq<Id>>,
                         polls: map<Name, Poll>, pending: multiset<Key>)

  function SetPoll(s: State, n: Name, p: Poll): State { s.(polls := s.polls[n := p]) }

  function Locked(s: State, t: Name): seq<Id> { if t in s.locks then s.locks[t] else [] }

  /** The rows are those that `t` has locked, in order. */
  ghost predicate Candidates(s: State, t: Name, rows: seq<Row>) {
    && InOrder(rows)
    && (forall r :: r in rows ==> r.id in s.table && s.table[r.id].row == r)
    && (forall id :: id in Ids(rows) <==> id in Locked(s, t))
  }

  datatype Step =
    | Enqueue(row: Row, others: multiset<Key>)
    | LockRow(t: Name, id: Id)
    | CommitClaim(t: Name, rows: seq<Row>, start: Time)
    | CommitAck(t: Name)
    | CommitRelease(t: Name)
    | Rollback(t: Name)
    | Elsewhere(keys: multiset<Key>)
    | Send(key: Key)
    | Tick(later: Time)
    | Arrive(n: Name, claims: bool, cursor: Option<Cursor>)
    | Look(n: Name)
    | TryRow(n: Name, id: Id)
    | Sleep(n: Name)
    | Receive(n: Name)
    | Timeout(n: Name)
    | Leave(n: Name)

  /** The ready messages that a look is for. */
  ghost predicate Wanted(x: Stored, start: Time, p: Poll) {
    Ready(x, start) && (p.claims || After(x.row, p.cursor))
  }

  /** A poll's next step.  `Leave` is an answer, or a lost connection. */
  ghost predicate Polls(s: State, step: Step, n: Name, p: Poll, s': State) {
    match step
    case Look(_) =>
      && p.stage == Trying
      && (var found := set id | id in s.table && Wanted(s.table[id], s.now, p);
          if p.claims then s' == SetPoll(s, n, p.(stage := Looking(found), looked := s.now, skipped := {}))
          else s' == SetPoll(s, n, p.(stage := if found == {} then Asleep else Ended, looked := s.now, skipped := {})))
    case TryRow(_, id) =>
      && p.stage.Looking? && id in p.stage.seen
      && (if exists t :: id in Locked(s, t)
          then s' == SetPoll(s, n, p.(stage := Looking(p.stage.seen - {id}), skipped := p.skipped + {id}))
          else if id in s.table && Ready(s.table[id], p.looked) then s' == SetPoll(s, n, p.(stage := Ended))
          else s' == SetPoll(s, n, p.(stage := Looking(p.stage.seen - {id}))))
    case Sleep(_) =>
      p.stage.Looking? && p.stage.seen == {} && s' == SetPoll(s, n, p.(stage := Asleep))
    case Receive(_) =>
      && p.stage.Asleep?
      && (if p.rx.lagged then s' == SetPoll(s, n, p.(stage := Trying, rx := p.rx.(lagged := false)))
          else p.rx.unread != []
               && s' == SetPoll(s, n, p.(rx := p.rx.(unread := p.rx.unread[1..]),
                                         stage := if p.rx.unread[0] == s.key then Trying else p.stage)))
    case Timeout(_) => p.stage.Asleep? && s' == SetPoll(s, n, p.(stage := Trying))
    case Leave(_) => s' == SetPoll(s, n, p.(stage := Ended))
    case _ => false
  }

  ghost predicate Next(s: State, step: Step, s': State) {
    match step
    case Enqueue(row, others) =>
      row.id !in s.table
      && s' == s.(table := s.table[row.id := Stored(row, None)], pending := s.pending + multiset{s.key} + others)
    case LockRow(t, id) =>
      id in s.table && (forall u :: u != t ==> id !in Locked(s, u))
      && s' == s.(locks := s.locks[t := Locked(s, t) + [id]])
    case CommitClaim(t, rows, start) =>
      Candidates(s, t, rows) && start <= s.now && (forall r :: r in rows ==> Ready(s.table[r.id], start))
      && s' == s.(table := Lease(s.table, Ids(Chosen(rows)), start + RECOVERY), locks := s.locks - {t})
    case CommitAck(t) =>
      s' == s.(table := Remove(s.table, Locked(s, t)), locks := s.locks - {t})
    case CommitRelease(t) =>
      s' == s.(table := Unlease(s.table, Locked(s, t)), locks := s.locks - {t},
               pending := if Locked(s, t) == [] then s.pending else s.pending + multiset{s.key})
    case Rollback(t) => s' == s.(locks := s.locks - {t})
    case Elsewhere(keys) => s' == s.(pending := s.pending + keys)
    case Send(key) =>
      key in s.pending
      && s' == s.(pending := s.pending - multiset{key},
                  polls := map n | n in s.polls :: s.polls[n].(rx := Push(s.polls[n].rx, key)))
    case Tick(later) => s.now <= later && s' == s.(now := later)
    case Arrive(n, claims, cursor) =>
      n !in s.polls && s' == SetPoll(s, n, Poll(claims, cursor, Receiver([], false), Trying, 0, {}))
    case _ => step.n in s.polls && Polls(s, step, step.n, s.polls[step.n], s')
  }

  ghost predicate Initial(s: State) {
    s.table == map[] && s.locks == map[] && s.polls == map[] && s.pending == multiset{}
  }

  ghost predicate Run(states: seq<State>, steps: seq<Step>) {
    && |states| == |steps| + 1 && Initial(states[0])
    && forall i :: 0 <= i < |steps| ==> Next(states[i], steps[i], states[i + 1])
  }

  ghost predicate Signalled(s: State, p: Poll) {
    s.key in s.pending || s.key in p.rx.unread || p.rx.lagged
  }

  /** A message that is ready as of the poll's last look, and that the poll would return:
      no lease covers it, or one that had already ended then. */
  ghost predicate Available(s: State, p: Poll, id: Id) {
    id in s.table && Wanted(s.table[id], p.looked, p)
  }

  ghost predicate GoodPoll(s: State, p: Poll) {
    && (!p.claims ==> p.skipped == {} && !p.stage.Looking?)
    && (p.stage.Looking? ==> Signalled(s, p) || forall id :: Available(s, p, id) ==> id in p.stage.seen || id in p.skipped)
    && (p.stage.Asleep? ==> Signalled(s, p) || forall id :: Available(s, p, id) ==> id in p.skipped)
  }

  /** A row is locked by one transaction at a time. */
  ghost predicate Exclusive(s: State) {
    forall t, u, id :: id in Locked(s, t) && id in Locked(s, u) ==> t == u
  }

  ghost predicate Invariant(s: State) {
    Exclusive(s) && PollsGood(s)
  }

  ghost predicate PollsGood(s: State) {
    forall n :: n in s.polls ==> GoodPoll(s, s.polls[n])
  }

  /** Only `LockRow` adds a lock. */
  lemma LocksGrow(s: State, step: Step, s': State, t: Name, id: Id)
    requires Next(s, step, s') && id in Locked(s', t)
    ensures id in Locked(s, t) || (step == LockRow(t, id) && forall u :: u != t ==> id !in Locked(s, u))
  {
    hide Candidates, Wanted;
  }

  lemma NextKeepsExclusive(s: State, step: Step, s': State)
    requires Exclusive(s) && Next(s, step, s')
    ensures Exclusive(s')
  {
    hide Next, Locked;
    forall t, u, id | id in Locked(s', t) && id in Locked(s', u) ensures t == u {
      LocksGrow(s, step, s', t, id);
      LocksGrow(s, step, s', u, id);
    }
  }

  /** A poll is as good after a step that makes no message available, or notifies. */
  lemma SparesPoll(s: State, s': State, p: Poll)
    requires GoodPoll(s, p) && s'.key == s.key
    requires s.key in s'.pending || (s.key !in s.pending && forall id :: Available(s', p, id) ==> Available(s, p, id))
    ensures GoodPoll(s', p)
  {
    hide Available;
  }

  lemma SendSpares(s: State, key: Key, s': State, p: Poll)
    requires GoodPoll(s, p)
    requires s' == s.(pending := s.pending - multiset{key}, polls := s'.polls)
    ensures GoodPoll(s', p.(rx := Push(p.rx, key)))
  {
    hide After;
    PushReaches(p.rx, key, s.key);
    assert Signalled(s, p) ==> Signalled(s', p.(rx := Push(p.rx, key)));
    assert forall id :: Available(s', p.(rx := Push(p.rx, key)), id) ==> Available(s, p, id);
  }

  lemma PollStepKeeps(s: State, step: Step, n: Name, p: Poll, s': State)
    requires PollsGood(s) && n in s.polls && p == s.polls[n] && Polls(s, step, n, p, s')
    ensures PollsGood(s')
  {
    hide After;
    PollAfterStep(s, step, n, p, s');
    forall m | m in s'.polls ensures GoodPoll(s', s'.polls[m]) {
      if m != n { SparesPoll(s, s', s.polls[m]); }
    }
  }

  /** After a look every message that is ready is found. */
  lemma LookFinds(s: State, step: Step, n: Name, p: Poll, s': State)
    requires step.Look? && n in s.polls && p == s.polls[n] && Polls(s, step, n, p, s')
    ensures GoodPoll(s', s'.polls[n])
  {
    hide After, Ready;
    var found := set id | id in s.table && Wanted(s.table[id], s.now, p);
    forall id | Available(s', s'.polls[n], id) ensures id in found {
      assert Wanted(s.table[id], s.now, p);
    }
  }

  lemma PollAfterStep(s: State, step: Step, n: Name, p: Poll, s': State)
    requires GoodPoll(s, p) && n in s.polls && p == s.polls[n] && Polls(s, step, n, p, s')
    ensures GoodPoll(s', s'.polls[n])
  {
    if step.Look? {
      LookFinds(s, step, n, p, s');
    } else {
      hide After, Ready, Locked;
      assert forall id :: Available(s', s'.polls[n], id) <==> Available(s, p, id);
      if step.Receive? && !p.rx.lagged { assert p.rx.unread == [p.rx.unread[0]] + p.rx.unread[1..]; }
      hide Available;
    }
  }

  predicate OfPoll(step: Step) {
    step.Look? || step.TryRow? || step.Sleep? || step.Receive? || step.Timeout? || step.Leave?
  }

  /** A lease that has ended by some time was taken by a claim that started before. */
  lemma LeasesFromTheStart(s: State, t: Name, rows: seq<Row>, start: Time, s': State)
    requires Next(s, CommitClaim(t, rows, start), s')
    ensures OldAvailable(s, s')
  {
    hide Chosen, InOrder;
    ChosenAreCandidates(rows);
    forall id, time | id in s'.table && Ready(s'.table[id], time)
      ensures id in s.table && Ready(s.table[id], time) && s.table[id].row == s'.table[id].row
    {
      if id in Ids(Chosen(rows)) {
        var i :| 0 <= i < |Chosen(rows)| && Chosen(rows)[i].id == id;
        assert Chosen(rows)[i] in rows;
      }
    }
  }

  lemma ChosenAreCandidates(rows: seq<Row>)
    ensures forall r :: r in Chosen(rows) ==> r in rows
  {
    PrefixChosen(rows);
  }

  /** All but polls and the channel keep the polls, and make a message available only
      with a notification to come. */
  lemma WritersNotify(s: State, step: Step, s': State)
    requires Next(s, step, s') && !OfPoll(step) && !step.Send? && !step.Arrive?
    ensures s'.key == s.key && s'.polls == s.polls && s.pending <= s'.pending
    ensures s.key in s'.pending || OldAvailable(s, s')
  {
    hide Chosen, Candidates, Ready, Locked;
    match step
    case CommitClaim(t, rows, start) => LeasesFromTheStart(s, t, rows, start, s');
    case CommitRelease(t) => if Locked(s, t) == [] { assert s'.table == s.table; }
    case _ =>
  }

  lemma NextKeepsPolls(s: State, step: Step, s': State)
    requires PollsGood(s) && Next(s, step, s')
    ensures PollsGood(s')
  {
    hide After, GoodPoll, Polls, Candidates;
    if step.Send? {
      forall m | m in s'.polls ensures GoodPoll(s', s'.polls[m]) {
        SendSpares(s, step.key, s', s.polls[m]);
      }
    } else if step.Arrive? {
      forall m | m in s'.polls ensures GoodPoll(s', s'.polls[m]) {
        if m != step.n { SparesPoll(s, s', s.polls[m]); } else { NewPoll(s', s'.polls[m]); }
      }
    } else if OfPoll(step) {
      PollStepKeeps(s, step, step.n, s.polls[step.n], s');
    } else {
      WritersNotify(s, step, s');
      WriterKeeps(s, s');
    }
  }

  lemma NewPoll(s: State, p: Poll)
    requires p.stage == Trying && p.skipped == {}
    ensures GoodPoll(s, p)
  {
  }

  lemma WriterKeeps(s: State, s': State)
    requires PollsGood(s) && s'.key == s.key && s'.polls == s.polls && s.pending <= s'.pending
    requires s.key in s'.pending || OldAvailable(s, s')
    ensures PollsGood(s')
  {
    hide After, GoodPoll;
    forall m | m in s'.polls ensures GoodPoll(s', s'.polls[m]) {
      SparesPoll(s, s', s.polls[m]);
    }
  }

  /** Every message that is ready as of some time was so before. */
  ghost predicate OldAvailable(s: State, s': State) {
    forall id, time :: id in s'.table && Ready(s'.table[id], time) ==>
      id in s.table && Ready(s.table[id], time) && s.table[id].row == s'.table[id].row
  }

  lemma {:induction false} RunKeepsInvariant(states: seq<State>, steps: seq<Step>, i: nat)
    requires Run(states, steps) && i < |states|
    ensures Invariant(states[i])
  {
    hide Next, Exclusive, PollsGood;
    if i > 0 {
      RunKeepsInvariant(states, steps, i - 1);
      NextKeepsExclusive(states[i - 1], steps[i - 1], states[i]);
      NextKeepsPolls(states[i - 1], steps[i - 1], states[i]);
    } else {
      Nobody(states[0]);
    }
  }

  lemma Nobody(s: State)
    requires Initial(s)
    ensures Invariant(s)
  {
  }

  // ---- the fate of a skipped message ----------------------------------------

  /** `t` has the row locked in all the states from `j` to `k`. */
  ghost predicate HeldThrough(states: seq<State>, j: nat, k: nat, t: Name, id: Id) {
    forall m :: j <= m <= k && m < |states| ==> id in Locked(states[m], t)
  }

  /** `t` ends and leaves the row as it is for a look at `looked`: it rolls back, or it is
      a claim whose candidates cost more than a response has room for, and the row is one
      of those left out, or it is a claim that had then been under way for so long that
      its leases had already ended. */
  ghost predicate LeavesOut(step: Step, t: Name, id: Id, looked: Time) {
    step == Rollback(t)
    || (step.CommitClaim? && step.t == t && id in Ids(step.rows)
        && if id in Ids(Chosen(step.rows)) then step.start + RECOVERY <= looked else TotalCost(step.rows) > BUDGET)
  }

  /** At step `j` the poll skipped the row because `t` had it locked, and `t` still has. */
  ghost predicate StillBehind(states: seq<State>, steps: seq<Step>, i: nat, n: Name, id: Id, j: nat, t: Name) {
    j < i < |states| && |steps| + 1 == |states| && steps[j] == TryRow(n, id) && HeldThrough(states, j, i, t, id)
  }

  /** At step `j` the poll skipped the row because `t` had it locked, and at step `k` that
      transaction ended and left the row as it was for the poll's look. */
  ghost predicate LeftBehind(states: seq<State>, steps: seq<Step>, i: nat, n: Name, id: Id, j: nat, k: nat, t: Name) {
    && j < k < i < |states| && |steps| + 1 == |states| && steps[j] == TryRow(n, id)
    && HeldThrough(states, j, k, t, id)
    && n in states[i].polls && LeavesOut(steps[k], t, id, states[i].polls[n].looked)
  }

  ghost predicate Explained(states: seq<State>, steps: seq<Step>, i: nat, n: Name, id: Id) {
    || (exists j, t :: StillBehind(states, steps, i, n, id, j, t))
    || (exists j, k, t :: LeftBehind(states, steps, i, n, id, j, k, t))
  }

  /** The poll has skipped the message, which is still ready for it, and nothing is on its
      way to the poll. */
  ghost predicate Overlooked(s: State, n: Name, id: Id) {
    n in s.polls && (s.polls[n].stage.Looking? || s.polls[n].stage.Asleep?) && id in s.polls[n].skipped
    && Available(s, s.polls[n], id) && !Signalled(s, s.polls[n])
  }

  /** The candidates that a response has room for are all leased. */
  lemma RoomForAll(rows: seq<Row>)
    requires TotalCost(rows) <= BUDGET
    ensures Chosen(rows) == rows
  {
    hide TotalCost, ChosenAmong;
    assert rows[..|rows|] == rows;
    var n := SomePrefixFits(rows, |rows|);
    ChosenIsPrefix(rows, |rows|, n);
  }

  /** A poll's step touches nothing but the poll. */
  lemma PollsTouchThemselves(s: State, step: Step, s': State)
    requires Next(s, step, s') && OfPoll(step)
    ensures step.n in s.polls && step.n in s'.polls && s' == SetPoll(s, step.n, s'.polls[step.n])
  {
    hide Wanted;
  }

  lemma OwnStepOverlooks(s: State, step: Step, s': State, id: Id)
    requires Next(s, step, s') && OfPoll(step) && Overlooked(s', step.n, id)
    ensures Overlooked(s, step.n, id) || (step == TryRow(step.n, id) && exists t :: id in Locked(s, t))
  {
    hide After, Ready, Locked;
    PollsTouchThemselves(s, step, s');
    var p := s.polls[step.n];
    if step.Receive? && !p.rx.lagged { assert p.rx.unread == [p.rx.unread[0]] + p.rx.unread[1..]; }
  }

  lemma SendOverlooks(s: State, key: Key, s': State, n: Name, id: Id)
    requires Next(s, Send(key), s') && Overlooked(s', n, id)
    ensures Overlooked(s, n, id)
  {
    hide After;
    PushReaches(s.polls[n].rx, key, s.key);
  }

  /** A poll that overlooks a message did so before the step, unless it has just skipped
      the message behind a lock. */
  lemma OverlookedBefore(s: State, step: Step, s': State, n: Name, id: Id)
    requires Next(s, step, s') && Overlooked(s', n, id)
    ensures Overlooked(s, n, id) || (step == TryRow(n, id) && s'.locks == s.locks && exists t :: id in Locked(s, t))
  {
    hide After, Candidates, Polls, Locked;
    if step.Send? {
      SendOverlooks(s, step.key, s', n, id);
    } else if OfPoll(step) {
      PollsTouchThemselves(s, step, s');
      if step.n == n { OwnStepOverlooks(s, step, s', id); }
    } else if !step.Arrive? {
      WritersNotify(s, step, s');
    }
  }

  /** A poll that goes on overlooking a message has not looked again. */
  lemma SameLook(s: State, step: Step, s': State, n: Name, id: Id)
    requires Next(s, step, s') && Overlooked(s, n, id) && Overlooked(s', n, id)
    ensures n in s.polls && n in s'.polls && s'.polls[n].looked == s.polls[n].looked
  {
    hide Available, Candidates, Wanted;
  }

  /** The transaction that has an overlooked row locked goes on, or leaves it out. */
  lemma HolderGoesOn(s: State, step: Step, s': State, n: Name, id: Id, t: Name)
    requires Next(s, step, s') && Overlooked(s, n, id) && Overlooked(s', n, id) && id in Locked(s, t)
    ensures id in Locked(s', t) || LeavesOut(step, t, id, s.polls[n].looked)
  {
    hide After, Chosen, Polls, TotalCost;
    if OfPoll(step) {
      PollsTouchThemselves(s, step, s');
    } else if step.CommitClaim? && step.t == t && TotalCost(step.rows) <= BUDGET {
      RoomForAll(step.rows);
    }
  }

  lemma {:induction false} OverlookedIsExplained(states: seq<State>, steps: seq<Step>, i: nat, n: Name, id: Id)
    requires Run(states, steps) && i < |states| && Overlooked(states[i], n, id)
    ensures Explained(states, steps, i, n, id)
  {
    hide Next, Overlooked, LeavesOut;
    if i == 0 {
      NoPollYet(states[0], n, id);
    } else {
      var s, step := states[i - 1], steps[i - 1];
      OverlookedBefore(s, step, states[i], n, id);
      if Overlooked(s, n, id) {
        OverlookedIsExplained(states, steps, i - 1, n, id);
        ExplainedGoesOn(states, steps, i, n, id);
      } else {
        var t :| id in Locked(s, t);
        assert StillBehind(states, steps, i, n, id, i - 1, t);
      }
    }
  }

  lemma NoPollYet(s: State, n: Name, id: Id)
    requires Initial(s)
    ensures !Overlooked(s, n, id)
  {
  }

  lemma ExplainedGoesOn(states: seq<State>, steps: seq<Step>, i: nat, n: Name, id: Id)
    requires Run(states, steps) && 0 < i < |states| && Explained(states, steps, i - 1, n, id)
    requires Overlooked(states[i - 1], n, id) && Overlooked(states[i], n, id)
    ensures Explained(states, steps, i, n, id)
  {
    hide Next, Overlooked, LeavesOut, Locked;
    var before := i - 1;
    SameLook(states[before], steps[before], states[i], n, id);
    if j, t :| StillBehind(states, steps, before, n, id, j, t) {
      HolderGoesOn(states[before], steps[before], states[i], n, id, t);
      if id in Locked(states[i], t) {
        assert StillBehind(states, steps, i, n, id, j, t);
      } else {
        assert LeftBehind(states, steps, i, n, id, j, before, t);
      }
    } else {
      var j, k, t :| LeftBehind(states, steps, before, n, id, j, k, t);
      assert LeftBehind(states, steps, i, n, id, j, k, t);
    }
  }

  /** No lost wakeup, except behind a lock: when a poll sleeps, nothing is on its way to
      it, and a message that is ready as of its last look is there for it, then the poll
      claims and has skipped that very message, and the transaction behind which it did
      still has the row locked, or has ended and left it as it was. */
  lemma NoLostWakeup(states: seq<State>, steps: seq<Step>, i: nat, n: Name, id: Id)
    requires Run(states, steps) && i < |states|
    requires n in states[i].polls && states[i].polls[n].stage.Asleep? && id in states[i].table
    requires var p, x := states[i].polls[n], states[i].table[id];
      && (x.lease.None? || x.lease.value <= p.looked)
      && (p.claims || p.cursor.None? || x.row.created > p.cursor.value.created
          || (x.row.created == p.cursor.value.created && Below(p.cursor.value.id, x.row.id)))
    requires var s, rx := states[i], states[i].polls[n].rx;
      s.key !in s.pending && s.key !in rx.unread && !rx.lagged
    ensures states[i].polls[n].claims && id in states[i].polls[n].skipped
    ensures Explained(states, steps, i, n, id)
  {
    assert Available(states[i], states[i].polls[n], id);
    assert !Signalled(states[i], states[i].polls[n]);
    hide Available, Run, Signalled, Explained;
    RunKeepsInvariant(states, steps, i);
    assert GoodPoll(states[i], states[i].polls[n]);
    OverlookedIsExplained(states, steps, i, n, id);
  }

  /** The poll sleeps on a message that is there for the taking: no lease covered it when
      the poll looked or does now, no transaction has it locked, and nothing is on its way
      to the poll. */
  ghost predicate Missed(s: State, n: Name, id: Id) {
    && n in s.polls && s.polls[n].stage.Asleep? && Available(s, s.polls[n], id) && !Signalled(s, s.polls[n])
    && forall t :: id !in Locked(s, t)
  }

  /** Every message that is missed in a run was skipped by a claim because a transaction
      had it locked, which then, before anything else became of the row, rolled back or
      committed leases on other rows only. */
  lemma MissedWasLeftBehind(states: seq<State>, steps: seq<Step>, i: nat, n: Name, id: Id)
    requires Run(states, steps) && i < |states| && Missed(states[i], n, id)
    ensures states[i].polls[n].claims
    ensures exists j, k, t :: LeftBehind(states, steps, i, n, id, j, k, t)
  {
    hide Run, LeavesOut;
    NoLostWakeup(states, steps, i, n, id);
    forall j, t ensures !StillBehind(states, steps, i, n, id, j, t) {
      assert id !in Locked(states[i], t);
    }
  }
}
