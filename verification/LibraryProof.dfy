/** What every run of the semaphore keeps, and what follows. */
module LibraryProof {
  import opened Wrappers
  import opened Broadcast
  import opened Leases
  import opened Library
  import opened LibraryRuns

  /** The leases of one resource are the same in two tables. */
  ghost predicate SameFor(a: LeaseTable, b: LeaseTable, id: Uuid) {
    && (forall l :: l in a && a[l].resource == id ==> l in b && b[l] == a[l])
    && (forall l :: l in b && b[l].resource == id ==> l in a && a[l] == b[l])
  }

  lemma SamePositions(a: LeaseTable, b: LeaseTable, id: Uuid, gone: set<Uuid>)
    requires SameFor(a, b, id)
    ensures Positions(a - gone, id) == Positions(b - gone, id)
  {
    HasPositions(a, b, id, gone);
    HasPositions(b, a, id, gone);
  }

  lemma HasPositions(a: LeaseTable, b: LeaseTable, id: Uuid, gone: set<Uuid>)
    requires SameFor(a, b, id)
    ensures Positions(a - gone, id) <= Positions(b - gone, id)
  {
    forall p | p in Positions(a - gone, id) ensures p in Positions(b - gone, id) {
      var l :| l in a - gone && a[l].resource == id && a[l].position == p;
      assert l in b - gone;
    }
  }

  /** A borrower is as good after a step that leaves its resource's rows alone. */
  lemma SparesBorrower(s: State, s': State, b: Borrower)
    requires GoodBorrower(s, b) && s.now <= s'.now
    requires b.id in s.resources <==> b.id in s'.resources
    requires b.id in s.resources ==> s'.resources[b.id] == s.resources[b.id]
    requires SameFor(s.leases, s'.leases, b.id) && (b.id in s.pending ==> b.id in s'.pending)
    requires b.stage.Inserted? ==> b.stage.lease !in s'.leases
    ensures GoodBorrower(s', b)
  {
    hide Positions;
    SamePositions(s.leases, s'.leases, b.id, b.gone);
    assert Expired(s.leases, b.id, b.start) == Expired(s'.leases, b.id, b.start);
    if b.stage.Asleep? && b.id in s.resources && TakenUntil(s.leases, b.id, s.resources[b.id], b.stage.wake) {
      forall p: nat | p < s.resources[b.id] ensures TakenAt(s'.leases, b.id, p, b.stage.wake) {
        assert TakenAt(s.leases, b.id, p, b.stage.wake);
      }
    }
  }

  /** The invariant after a step of one borrower that changes no table. */
  lemma OneMoves(s: State, n: Name, b: Borrower, s': State)
    requires Invariant(s) && s' == Set(s, n, b) && GoodBorrower(s', b)
    requires forall m :: m in s.borrowers && m != n ==> Apart(b, s.borrowers[m])
    ensures Invariant(s')
  {
    hide GoodBorrower;
    forall m | m in s'.borrowers ensures GoodBorrower(s', s'.borrowers[m]) {
      if m != n { SparesBorrowerAll(s, s', s.borrowers[m]); }
    }
  }

  lemma SparesBorrowerAll(s: State, s': State, b: Borrower)
    requires GoodBorrower(s, b) && s' == s.(borrowers := s'.borrowers)
    ensures GoodBorrower(s', b)
  {
  }

  lemma LockKeeps(s: State, n: Name, s': State)
    requires Invariant(s) && Next(s, Lock(n), s')
    ensures Invariant(s')
  {
    var b := s'.borrowers[n];
    assert GoodBorrower(s, s.borrowers[n]);
    if HasLock(b) {
      forall m | m in s.borrowers && m != n ensures Apart(b, s.borrowers[m]) {
        assert !RowLocked(s, b.id);
      }
    }
    OneMoves(s, n, b, s');
  }

  lemma PickKeeps(s: State, n: Name, s': State)
    requires Invariant(s) && Next(s, Pick(n), s')
    ensures Invariant(s')
  {
    hide Tables;
    var b := s.borrowers[n];
    assert GoodBorrower(s, b);
    LeastFreeIs(Positions(s.leases - b.gone, b.id), 0, b.count);
    OneMoves(s, n, s'.borrowers[n], s');
  }

  lemma ReadExpiryKeeps(s: State, n: Name, wake: Option<Time>, s': State)
    requires Invariant(s) && Next(s, ReadExpiry(n, wake), s')
    ensures Invariant(s')
  {
    hide Tables;
    var b := s.borrowers[n];
    assert GoodBorrower(s, b);
    var left := OfResource(s.leases - b.gone, b.id);
    if !Signalled(s, b) {
      forall p: nat | p < b.count ensures TakenAt(s.leases, b.id, p, wake) {
        assert p in Positions(s.leases - b.gone, b.id);
        var l :| l in s.leases - b.gone && s.leases[l].resource == b.id && s.leases[l].position == p;
        assert l in left;
      }
    }
    OneMoves(s, n, s'.borrowers[n], s');
  }

  lemma ReceiveKeeps(s: State, n: Name, s': State)
    requires Invariant(s) && Next(s, Receive(n), s')
    ensures Invariant(s')
  {
    hide Tables;
    var b := s.borrowers[n];
    assert GoodBorrower(s, b);
    if !b.rx.lagged { assert b.rx.unread == [b.rx.unread[0]] + b.rx.unread[1..]; }
    OneMoves(s, n, s'.borrowers[n], s');
  }

  lemma CommitKeeps(s: State, n: Name, s': State)
    requires Invariant(s) && Next(s, Commit(n), s')
    ensures Invariant(s')
  {
    hide Apart;
    var b := s.borrowers[n];
    assert GoodBorrower(s, b);
    forall m | m in s'.borrowers ensures GoodBorrower(s', s'.borrowers[m]) {
      if m != n { CommitSpares(s, n, s', m); }
    }
    forall k, m | k in s'.borrowers && m in s'.borrowers && k != m ensures Apart(s'.borrowers[k], s'.borrowers[m]) {
      ApartAfter(s, n, s', k, m);
    }
    CommitTables(s, n, s');
  }

  lemma ApartAfter(s: State, n: Name, s': State, k: Name, m: Name)
    requires Invariant(s) && n in s.borrowers && s'.borrowers.Keys == s.borrowers.Keys
    requires k in s.borrowers && m in s.borrowers && k != m
    requires forall j :: j in s.borrowers && j != n ==> s'.borrowers[j] == s.borrowers[j]
    requires !HasLock(s'.borrowers[n])
    ensures Apart(s'.borrowers[k], s'.borrowers[m])
  {
    assert Apart(s.borrowers[k], s.borrowers[m]);
  }

  lemma CommitTables(s: State, n: Name, s': State)
    requires Tables(s) && Next(s, Commit(n), s') && GoodBorrower(s, s.borrowers[n])
    ensures Tables(s')
  {
    var b := s.borrowers[n];
    forall l | l in s.leases && l !in b.gone && s.leases[l].resource == b.id ensures s.leases[l].position != b.stage.position {
      assert l in s.leases - b.gone;
      assert s.leases[l].position in Positions(s.leases - b.gone, b.id);
    }
  }

  lemma CommitSpares(s: State, n: Name, s': State, m: Name)
    requires Invariant(s) && Next(s, Commit(n), s') && m in s.borrowers && m != n
    ensures GoodBorrower(s', s.borrowers[m])
  {
    hide Tables, Positions;
    var b, c := s.borrowers[n], s.borrowers[m];
    assert Apart(b, c) && GoodBorrower(s, b) && GoodBorrower(s, c);
    if c.id != b.id {
      assert SameFor(s.leases, s'.leases, c.id);
      SparesBorrower(s, s', c);
    } else if c.stage.Asleep? && TakenUntil(s.leases, c.id, s.resources[c.id], c.stage.wake) && !Due(c.stage.wake, s.now) {
      forall p: nat | p < s.resources[c.id] ensures TakenAt(s'.leases, c.id, p, c.stage.wake) {
        assert TakenAt(s.leases, c.id, p, c.stage.wake);
        var l :| l in s.leases && s.leases[l].resource == c.id && s.leases[l].position == p && c.stage.wake.value <= s.leases[l].expires;
        assert l !in b.gone;
        assert l in s'.leases && s'.leases[l] == s.leases[l];
      }
    }
  }

  lemma PutKeeps(s: State, id: Uuid, count: nat, s': State)
    requires Invariant(s) && Next(s, Put(id, count), s')
    ensures Invariant(s')
  {
    hide Apart;
    forall m | m in s'.borrowers ensures GoodBorrower(s', s'.borrowers[m]) {
      var b := s.borrowers[m];
      assert GoodBorrower(s, b);
      if b.id != id { SparesBorrower(s, s', b); } else { assert !HasLock(b); }
    }
    assert Tables(s');
  }

  lemma DeleteKeeps(s: State, id: Uuid, s': State)
    requires Invariant(s) && Next(s, Delete(id), s')
    ensures Invariant(s')
  {
    hide Apart;
    forall m | m in s'.borrowers ensures GoodBorrower(s', s'.borrowers[m]) {
      var b := s.borrowers[m];
      assert GoodBorrower(s, b);
      if b.id != id { SparesBorrower(s, s', b); } else { assert !HasLock(b); }
    }
    assert Tables(s');
  }

  lemma ReturnKeeps(s: State, id: Uuid, lease: Uuid, start: Time, s': State)
    requires Invariant(s) && Next(s, Return(id, lease, start), s')
    ensures Invariant(s')
  {
    hide Apart, Tables;
    forall m | m in s'.borrowers ensures GoodBorrower(s', s'.borrowers[m]) {
      var b := s.borrowers[m];
      assert GoodBorrower(s, b);
      if b.id != id { SparesBorrower(s, s', b); } else { ReturnSpares(s, id, lease, start, s', b); }
    }
    ReturnTables(s, lease, s');
  }

  lemma ReturnTables(s: State, lease: Uuid, s': State)
    requires Tables(s) && s' == s.(leases := s.leases - {lease}, pending := s'.pending)
    ensures Tables(s')
  {
  }

  lemma ReturnSpares(s: State, id: Uuid, lease: Uuid, start: Time, s': State, b: Borrower)
    requires GoodBorrower(s, b) && b.id == id && lease in s.leases && (HasLock(b) ==> lease !in b.gone)
    requires s' == s.(leases := s.leases - {lease}, pending := s.pending + multiset{id})
    ensures GoodBorrower(s', b)
  {
    hide Positions;
    assert Signalled(s', b);
    FewerPositions(s.leases - b.gone, s'.leases - b.gone, id);
    if HasLock(b) && b.stage != Locked {
      assert Expired(s'.leases, id, b.start) == Expired(s.leases, id, b.start);
    }
  }

  lemma FewerPositions(more: LeaseTable, fewer: LeaseTable, id: Uuid)
    requires fewer.Keys <= more.Keys && forall l :: l in fewer ==> fewer[l] == more[l]
    ensures Positions(fewer, id) <= Positions(more, id)
  {
    forall p | p in Positions(fewer, id) ensures p in Positions(more, id) {
      var l :| l in fewer && fewer[l].resource == id && fewer[l].position == p;
      assert l in more;
    }
  }

  /** What was on its way to a borrower still is: pushed, or its loss is known. */
  lemma SendKeeps(s: State, id: Uuid, s': State)
    requires Invariant(s) && Next(s, Send(id), s')
    ensures Invariant(s')
  {
    hide Apart, Tables;
    forall m | m in s'.borrowers ensures GoodBorrower(s', s'.borrowers[m]) {
      SendSpares(s, id, s', s.borrowers[m]);
    }
    forall k, m | k in s'.borrowers && m in s'.borrowers && k != m ensures Apart(s'.borrowers[k], s'.borrowers[m]) {
      SendApart(s.borrowers[k], s.borrowers[m], id);
    }
    SendTables(s, s');
  }

  lemma SendApart(a: Borrower, b: Borrower, id: Uuid)
    requires Apart(a, b)
    ensures Apart(a.(rx := Push(a.rx, id)), b.(rx := Push(b.rx, id)))
  {
  }

  lemma SendTables(s: State, s': State)
    requires Tables(s) && s' == s.(pending := s'.pending, borrowers := s'.borrowers, now := s'.now)
    ensures Tables(s')
  {
  }

  lemma SendSpares(s: State, id: Uuid, s': State, b: Borrower)
    requires GoodBorrower(s, b) && s' == s.(pending := s.pending - multiset{id}, borrowers := s'.borrowers)
    ensures GoodBorrower(s', b.(rx := Push(b.rx, id)))
  {
    hide Positions, TakenUntil;
    PushReaches(b.rx, id, b.id);
    assert Signalled(s, b) ==> Signalled(s', b.(rx := Push(b.rx, id)));
  }

  lemma TickKeeps(s: State, s': State)
    requires Invariant(s) && s' == s.(now := s'.now) && s.now <= s'.now
    ensures Invariant(s')
  {
    hide Apart, Tables;
    forall m | m in s'.borrowers ensures GoodBorrower(s', s'.borrowers[m]) {
      SparesBorrower(s, s', s.borrowers[m]);
    }
    SendTables(s, s');
  }

  lemma NextKeepsInvariant(s: State, step: Step, s': State)
    requires Invariant(s) && Next(s, step, s')
    ensures Invariant(s')
  {
    hide Tables;
    match step
    case Lock(n) => LockKeeps(s, n, s');
    case Pick(n) => PickKeeps(s, n, s');
    case Commit(n) => CommitKeeps(s, n, s');
    case ReadExpiry(n, wake) => ReadExpiryKeeps(s, n, wake, s');
    case Receive(n) => ReceiveKeeps(s, n, s');
    case Put(id, count) => PutKeeps(s, id, count, s');
    case Delete(id) => DeleteKeeps(s, id, s');
    case Return(id, lease, start) => ReturnKeeps(s, id, lease, start, s');
    case Send(id) => SendKeeps(s, id, s');
    case Tick(later) => TickKeeps(s, s');
    case _ => SimpleKeeps(s, step, s');
  }

  lemma SimpleKeeps(s: State, step: Step, s': State)
    requires Invariant(s) && Next(s, step, s')
    requires step.Arrive? || step.Begin? || step.Sweep? || step.Insert? || step.Timeout? || step.Leave?
    ensures Invariant(s')
  {
    hide Tables, Positions;
    var n := step.n;
    var b := s'.borrowers[n];
    if n in s.borrowers { assert GoodBorrower(s, s.borrowers[n]); }
    forall m | m in s.borrowers && m != n ensures Apart(b, s.borrowers[m]) {
      if n in s.borrowers { assert Apart(s.borrowers[n], s.borrowers[m]); }
    }
    OneMoves(s, n, b, s');
  }

  lemma {:induction false} RunKeepsInvariant(states: seq<State>, steps: seq<Step>, i: nat)
    requires Run(states, steps) && i < |states|
    ensures Invariant(states[i])
  {
    hide Next, Invariant;
    if i == 0 {
      EmptyTables(states[0]);
    } else {
      RunKeepsInvariant(states, steps, i - 1);
      NextKeepsInvariant(states[i - 1], steps[i - 1], states[i]);
    }
  }

  lemma EmptyTables(s: State)
    requires Initial(s)
    ensures Invariant(s)
  {
  }

  // ---- what follows --------------------------------------------------------

  /** In every reachable state the stored leases of a resource are on different
      positions, the available positions are between none and all, and the live leases
      are at most the largest count ever put. */
  lemma LeasesAgree(states: seq<State>, steps: seq<Step>, i: nat, id: Uuid, now: Time)
    requires Run(states, steps) && i < |states| && id in states[i].resources
    ensures var s := states[i];
      && DistinctPositions(s.leases)
      && InUse(s.leases, id, s.resources[id], now) <= s.resources[id]
      && id in s.largest && |Live(s.leases, id, now).Keys| <= s.largest[id]
  {
    hide GoodBorrower, Apart;
    RunKeepsInvariant(states, steps, i);
    var s := states[i];
    Pigeonhole(s.leases, id, s.resources[id], now);
    Pigeonhole(s.leases, id, s.largest[id], now);
    forall l | l in Live(s.leases, id, now) ensures l in Counted(s.leases, id, s.largest[id], now) {
      assert InRange(s, s.leases[l]);
    }
    assert Live(s.leases, id, now).Keys == Counted(s.leases, id, s.largest[id], now);
  }

  /** A borrower that looks for a position finds one exactly if one is available at the
      start of its transaction by the leases stored now, and it is the least. */
  lemma PickIffAvailable(states: seq<State>, steps: seq<Step>, i: nat)
    requires Run(states, steps) && i < |steps| && steps[i].Pick?
    ensures var s, s', n := states[i], states[i + 1], steps[i].n;
      var b, after := s.borrowers[n], s'.borrowers[n];
      && b.id in s.resources
      && (after.stage == FoundFull || after.stage.Picked?)
      && (after.stage.Picked? <==> InUse(s.leases, b.id, s.resources[b.id], b.start) < s.resources[b.id])
      && (after.stage.Picked? <==> exists p: nat :: p < s.resources[b.id] && FreeAt(s.leases, b.id, p, b.start))
      && (after.stage.Picked? ==>
            && after.stage.position < s.resources[b.id]
            && FreeAt(s.leases, b.id, after.stage.position, b.start)
            && forall p: nat :: p < after.stage.position ==> !FreeAt(s.leases, b.id, p, b.start))
  {
    hide Apart, Positions, InUse, LeastFree, FreeAt;
    RunKeepsInvariant(states, steps, i);
    var s, n := states[i], steps[i].n;
    assert Next(s, steps[i], states[i + 1]);
    var b := s.borrowers[n];
    assert GoodBorrower(s, b) && Borrows(s, steps[i], n, b, states[i + 1]);
    assert s.leases - b.gone == Leases.Swept(s.leases, b.id, b.start);
    SweptIsLive(s.leases, b.id, b.start);
    LeastFreeIs(Positions(s.leases - b.gone, b.id), 0, b.count);
    FreeAtIs(s.leases, b.id, b.start);
    Pigeonhole(s.leases, b.id, b.count, b.start);
  }

  /** A borrow that commits, whatever happened since it looked, takes a position below
      the count that no other stored lease holds; its sweep removed expired leases of
      the resource only, and all other leases are as they were. */
  lemma BorrowTakesFreePosition(states: seq<State>, steps: seq<Step>, i: nat)
    requires Run(states, steps) && i < |steps| && steps[i].Commit?
    ensures var s, s', b := states[i], states[i + 1], states[i].borrowers[steps[i].n];
      var p, lease := b.stage.position, b.stage.lease;
      && b.id in s.resources && p < s.resources[b.id]
      && lease !in s.leases && lease in s'.leases
      && (forall l :: l != lease ==>
            (l in s'.leases <==> l in s.leases && !(s.leases[l].resource == b.id && s.leases[l].expires <= b.start)))
      && b.start <= s.now && s'.leases[lease] == Lease(b.id, p, b.start + b.ttl)
      && (forall l :: l in s.leases && l in s'.leases ==> s'.leases[l] == s.leases[l])
      && (forall l :: l in s.leases && l in s'.leases && s.leases[l].resource == b.id ==> s.leases[l].position != p)
  {
    hide Tables, Apart, Positions;
    RunKeepsInvariant(states, steps, i);
    var s, s', b := states[i], states[i + 1], states[i].borrowers[steps[i].n];
    assert GoodBorrower(s, b);
    forall l | l in s.leases && l in s'.leases && s.leases[l].resource == b.id ensures s.leases[l].position != b.stage.position {
      PositionOf(s.leases - b.gone, l);
    }
  }

  lemma PositionOf(leases: LeaseTable, l: Uuid)
    requires l in leases
    ensures leases[l].position in Positions(leases, leases[l].resource)
  {
  }

  /** No lost wakeup: when a borrower sleeps beyond now, its receiver holds nothing that
      would wake it, and a position is available, then a writer of its resource is
      between its commit and its send. */
  lemma NoLostWakeup(states: seq<State>, steps: seq<Step>, i: nat, n: Name)
    requires Run(states, steps) && i < |states|
    requires var s := states[i];
      && n in s.borrowers && s.borrowers[n].stage.Asleep?
      && (var b := s.borrowers[n];
          && b.id !in b.rx.unread && !b.rx.lagged && !Due(b.stage.wake, s.now)
          && b.id in s.resources && exists p: nat :: p < s.resources[b.id] && FreeAt(s.leases, b.id, p, s.now))
    ensures states[i].borrowers[n].id in states[i].pending
  {
    hide Apart, Positions, Live, FreeAt;
    RunKeepsInvariant(states, steps, i);
    var s := states[i];
    var b := s.borrowers[n];
    assert GoodBorrower(s, b);
    if TakenUntil(s.leases, b.id, s.resources[b.id], b.stage.wake) {
      forall p: nat | p < s.resources[b.id] ensures p in Positions(Live(s.leases, b.id, s.now), b.id) {
        assert TakenAt(s.leases, b.id, p, b.stage.wake);
        TakenIsLive(s.leases, b.id, p, b.stage.wake, s.now);
      }
      FreeAtIs(s.leases, b.id, s.now);
    }
  }

  lemma TakenIsLive(leases: LeaseTable, id: Uuid, p: nat, wake: Option<Time>, now: Time)
    requires TakenAt(leases, id, p, wake) && !Due(wake, now)
    ensures p in Positions(Live(leases, id, now), id)
  {
    var l :| l in leases && leases[l].resource == id && leases[l].position == p && wake.value <= leases[l].expires;
    assert l in Live(leases, id, now);
  }
}
