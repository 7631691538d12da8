/** The semaphore over whole runs: borrowers one SQL statement at a time, puts,
    deletes, returns, notifications on their way, and the clock.

    `FOR UPDATE`, `UPDATE` and `DELETE` of a row wait for the holder of its lock; a
    statement sees what was committed when it began and its own transaction's work;
    `now()` is the start of the transaction. */
module LibraryRuns {
  import opened Wrappers
  import opened Broadcast
  import opened Leases
  import opened Library

  /** Where `borrow_resource` and its `try_borrow` are: `Locked` to `Full` are the
      transaction's, with the row locked since `Locked`. */
  datatype Stage =
    | Trying
    | Begun
    | Locked
    | Swept
    | Picked(position: nat)
    | Inserted(position: nat, lease: Uuid)
    | FoundFull
    | Asleep(wake: Option<Time>)
    | Ended

  /** `start` and `gone` are the transaction's `now()` and the leases it has deleted. */
  datatype Borrower = Borrower(id: Uuid, ttl: Time, rx: Receiver<Uuid>, stage: Stage, start: Time, count: nat, gone: set<Uuid>)

  type Name = nat

  /** `pending` are the notifications of writers that have committed but not yet sent. */
  datatype State = State(resources: map<Uuid, nat>, largest: map<Uuid, nat>, leases: LeaseTable, now: Time,
                         borrowers: map<Name, Borrower>, pending: multiset<Uuid>)

  predicate HasLock(b: Borrower) {
    b.stage.Locked? || b.stage.Swept? || b.stage.Picked? || b.stage.Inserted? || b.stage.FoundFull?
  }

  ghost predicate RowLocked(s: State, id: Uuid) {
    exists n :: n in s.borrowers && s.borrowers[n].id == id && HasLock(s.borrowers[n])
  }

  function Expired(leases: LeaseTable, id: Uuid, start: Time): set<Uuid> {
    set l | l in leases && leases[l].resource == id && leases[l].expires <= start
  }

  datatype Step =
    | Arrive(n: Name, id: Uuid, ttl: Time)
    | Begin(n: Name)
    | Lock(n: Name)
    | Sweep(n: Name)
    | Pick(n: Name)
    | Insert(n: Name, lease: Uuid)
    | Commit(n: Name)
    | ReadExpiry(n: Name, wake: Option<Time>)
    | Receive(n: Name)
    | Timeout(n: Name)
    | Leave(n: Name)
    | Put(id: Uuid, count: nat)
    | Delete(id: Uuid)
    | Return(id: Uuid, lease: Uuid, start: Time)
    | Send(id: Uuid)
    | Tick(later: Time)

  function Set(s: State, n: Name, b: Borrower): State { s.(borrowers := s.borrowers[n := b]) }

  /** A borrower's next step. */
  ghost predicate Borrows(s: State, step: Step, n: Name, b: Borrower, s': State) {
    match step
    case Begin(_) => b.stage == Trying && s' == Set(s, n, b.(stage := Begun, start := s.now, gone := {}))
    case Lock(_) =>
      && b.stage == Begun
      && (if b.id in s.resources
          then !RowLocked(s, b.id) && s' == Set(s, n, b.(stage := Locked, count := s.resources[b.id]))
          else s' == Set(s, n, b.(stage := Ended)))
    case Sweep(_) =>
      b.stage == Locked && s' == Set(s, n, b.(stage := Stage.Swept, gone := Expired(s.leases, b.id, b.start)))
    case Pick(_) =>
      && b.stage == Stage.Swept
      && s' == Set(s, n, b.(stage := match LeastFree(Positions(s.leases - b.gone, b.id), 0, b.count) {
                                       case Some(p) => Picked(p)
                                       case None => FoundFull
                                     }))
    case Insert(_, lease) =>
      && b.stage.Picked? && lease !in s.leases
      && (forall m :: m in s.borrowers && s.borrowers[m].stage.Inserted? ==> s.borrowers[m].stage.lease != lease)
      && s' == Set(s, n, b.(stage := Inserted(b.stage.position, lease)))
    case Commit(_) =>
      && b.stage.Inserted?
      && s' == Set(s, n, b.(stage := Ended)).(
                 leases := (s.leases - b.gone)[b.stage.lease := Lease(b.id, b.stage.position, b.start + b.ttl)])
    case ReadExpiry(_, wake) =>
      && b.stage == FoundFull && IsNextExpiry(wake, OfResource(s.leases - b.gone, b.id))
      && s' == Set(s, n, b.(stage := Asleep(wake)))
    case Receive(_) =>
      && b.stage.Asleep?
      && (if b.rx.lagged then s' == Set(s, n, b.(stage := Trying, rx := b.rx.(lagged := false)))
          else b.rx.unread != []
               && s' == Set(s, n, b.(rx := b.rx.(unread := b.rx.unread[1..]),
                                     stage := if b.rx.unread[0] == b.id then Trying else b.stage)))
    case Timeout(_) => b.stage.Asleep? && s' == Set(s, n, b.(stage := Trying))
    case Leave(_) => s' == Set(s, n, b.(stage := Ended))
    case _ => false
  }

  /** A borrower subscribes on arrival, before it tries.  `Timeout` is the next expiry
      or the borrower's own deadline, after which it takes one last look; `Leave` is a
      final answer, a lost connection, or an error.  Writers commit before they send. */
  ghost predicate Next(s: State, step: Step, s': State) {
    match step
    case Arrive(n, id, ttl) =>
      n !in s.borrowers && s' == Set(s, n, Borrower(id, ttl, Receiver([], false), Trying, 0, 0, {}))
    case Put(id, count) =>
      && !RowLocked(s, id)
      && s' == s.(resources := s.resources[id := count],
                  largest := s.largest[id := if id in s.largest && s.largest[id] > count then s.largest[id] else count],
                  pending := s.pending + multiset{id})
    case Delete(id) =>
      && !RowLocked(s, id)
      && s' == s.(resources := s.resources - {id}, largest := s.largest - {id},
                  leases := map l | l in s.leases && s.leases[l].resource != id :: s.leases[l])
    case Return(id, lease, start) =>
      && start <= s.now && lease in Live(s.leases, id, start)
      && (forall n :: n in s.borrowers && HasLock(s.borrowers[n]) ==> lease !in s.borrowers[n].gone)
      && s' == s.(leases := s.leases - {lease}, pending := s.pending + multiset{id})
    case Send(id) =>
      && id in s.pending
      && s' == s.(pending := s.pending - multiset{id},
                  borrowers := map n | n in s.borrowers :: s.borrowers[n].(rx := Push(s.borrowers[n].rx, id)))
    case Tick(later) => s.now <= later && s' == s.(now := later)
    case _ => step.n in s.borrowers && Borrows(s, step, step.n, s.borrowers[step.n], s')
  }

  ghost predicate Initial(s: State) {
    s.resources == map[] && s.largest == map[] && s.leases == map[] && s.borrowers == map[] && s.pending == multiset{}
  }

  ghost predicate Run(states: seq<State>, steps: seq<Step>) {
    && |states| == |steps| + 1 && Initial(states[0])
    && forall i :: 0 <= i < |steps| ==> Next(states[i], steps[i], states[i + 1])
  }

  ghost predicate InRange(s: State, l: Lease) {
    l.resource in s.resources && l.resource in s.largest && l.position < s.largest[l.resource]
  }

  ghost predicate Tables(s: State) {
    && DistinctPositions(s.leases)
    && (forall id :: id in s.resources ==> id in s.largest && s.resources[id] <= s.largest[id])
    && (forall l :: l in s.leases ==> InRange(s, s.leases[l]))
  }

  /** A notification of the resource is on its way to the borrower. */
  ghost predicate Signalled(s: State, b: Borrower) {
    b.id in s.pending || b.id in b.rx.unread || b.rx.lagged
  }

  ghost predicate Due(wake: Option<Time>, now: Time) { wake.Some? && wake.value <= now }

  /** Every position is taken by a lease that does not expire before `wake`. */
  ghost predicate TakenUntil(leases: LeaseTable, id: Uuid, count: nat, wake: Option<Time>) {
    forall p: nat :: p < count ==> TakenAt(leases, id, p, wake)
  }

  ghost predicate TakenAt(leases: LeaseTable, id: Uuid, p: nat, wake: Option<Time>) {
    exists l :: l in leases && leases[l].resource == id && leases[l].position == p
                && wake.Some? && wake.value <= leases[l].expires
  }

  /** Why a sleeping borrower may sleep. */
  ghost predicate MaySleep(s: State, b: Borrower, wake: Option<Time>) {
    Signalled(s, b) || Due(wake, s.now) || b.id !in s.resources || TakenUntil(s.leases, b.id, s.resources[b.id], wake)
  }

  ghost predicate GoodBorrower(s: State, b: Borrower) {
    && b.start <= s.now
    && (HasLock(b) ==> b.id in s.resources && b.count == s.resources[b.id])
    && (HasLock(b) && b.stage != Locked ==> b.gone == Expired(s.leases, b.id, b.start))
    && (match b.stage
        case Picked(p) => p < b.count && p !in Positions(s.leases - b.gone, b.id)
        case Inserted(p, lease) => p < b.count && p !in Positions(s.leases - b.gone, b.id) && lease !in s.leases
        case FoundFull => Signalled(s, b) || forall p: nat :: p < b.count ==> p in Positions(s.leases - b.gone, b.id)
        case Asleep(wake) => MaySleep(s, b, wake)
        case _ => true)
  }

  ghost predicate Apart(a: Borrower, b: Borrower) {
    && (HasLock(a) && HasLock(b) ==> a.id != b.id)
    && (a.stage.Inserted? && b.stage.Inserted? ==> a.stage.lease != b.stage.lease)
  }

  ghost predicate Invariant(s: State) {
    && Tables(s)
    && (forall n :: n in s.borrowers ==> GoodBorrower(s, s.borrowers[n]))
    && (forall m, n :: m in s.borrowers && n in s.borrowers && m != n ==> Apart(s.borrowers[m], s.borrowers[n]))
  }
}
