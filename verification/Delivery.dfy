/** One inbox over whole runs: enqueues, claims one statement and one row at a time,
    forwarders that replay what they claim, acknowledgements and releases that are
    carried out late, more than once or never, crashes, and the clock.

    A claim's `SELECT .. FOR UPDATE SKIP LOCKED` finds its rows in one snapshot, skips
    a row that another transaction has locked, and tests the newest version of a row
    again once it is locked; `now()` is the start of the transaction. */
module Delivery {
  import opened Wrappers
  import opened InboxRows
  import opened InboxTable
  import opened Claims
  import opened Paging

  type Worker = nat

  /** A forwarder: it claims, then forwards the batch in order; `done` of it went
      through. */
  datatype Activity =
    | Idle
    | Begun(start: Time, limit: nat)
    | Scanning(start: Time, limit: nat, found: seq<Row>, next: nat, held: seq<Row>)
    | Forwarding(batch: seq<Id>, done: nat)

  datatype Call = AckCall(ids: seq<Id>) | ReleaseCall(ids: seq<Id>)

  datatype Event = Claimed(id: Id, start: Time) | Released(id: Id)

  /** `history` are the claims and releases in the order of their commits; `calls` the
      requests that have been sent. */
  datatype State = State(table: Table, now: Time, used: set<Id>, history: seq<Event>,
                         workers: map<Worker, Activity>, calls: set<Call>, forwarded: set<Id>)

  /** The locked row, if some worker's claim has locked it. */
  ghost predicate LockedBy(s: State, w: Worker, id: Id) {
    w in s.workers && s.workers[w].Scanning? && id in Ids(s.workers[w].held)
  }

  function ClaimEvents(rows: seq<Row>, start: Time): (events: seq<Event>)
    ensures |events| == |rows|
  {
    seq(|rows|, i requires 0 <= i < |rows| => Claimed(rows[i].id, start))
  }

  function ReleaseEvents(table: Table, ids: seq<Id>): seq<Event> {
    if ids == [] then []
    else ReleaseEvents(table, ids[..|ids| - 1]) + if ids[|ids| - 1] in table then [Released(ids[|ids| - 1])] else []
  }

  /** What a failed or finished batch sends: an acknowledgement of the forwarded
      prefix, a release of the rest. */
  function CallsAfter(batch: seq<Id>, done: nat): set<Call>
    requires done <= |batch|
  {
    (if done == 0 then {} else {AckCall(batch[..done])}) + (if done == |batch| then {} else {ReleaseCall(batch[done..])})
  }

  datatype Step =
    | Enqueued(row: Row)
    | Begin(w: Worker, limit: nat)
    | Snapshot(w: Worker, found: seq<Row>)
    | Scan(w: Worker, locked: bool)
    | ClaimCommit(w: Worker, rows: seq<Row>, n: nat)
    | Forward(w: Worker)
    | EndBatch(w: Worker)
    | Crash(w: Worker)
    | Carry(call: Call)
    | Outside(call: Call)
    | Tick(later: Time)

  function SetWorker(s: State, w: Worker, a: Activity): State { s.(workers := s.workers[w := a]) }

  /** `Scan` may find a row locked by an acknowledgement or a release at any time, and
      has to when another claim holds it.  The rows come back from a claim in any
      order; the response holds the first `n`. */
  ghost predicate Next(s: State, step: Step, s': State) {
    match step
    case Enqueued(row) =>
      row.id !in s.used
      && s' == s.(table := s.table[row.id := Stored(row, None)], used := s.used + {row.id})
    case Begin(w, limit) =>
      limit >= 1 && (w in s.workers ==> s.workers[w].Idle?) && s' == SetWorker(s, w, Begun(s.now, limit))
    case Snapshot(w, found) =>
      w in s.workers && s.workers[w].Begun? && Listing(found, s.table, s.workers[w].start, None)
      && s' == SetWorker(s, w, Scanning(s.workers[w].start, s.workers[w].limit, found, 0, []))
    case Scan(w, locked) =>
      && w in s.workers && s.workers[w].Scanning?
      && (var a := s.workers[w];
          && a.next < |a.found| && |a.held| < a.limit
          && (var r := a.found[a.next];
              && ((exists v :: v != w && LockedBy(s, v, r.id)) ==> locked)
              && s' == SetWorker(s, w, a.(next := a.next + 1, held :=
                         if !locked && r.id in s.table && Ready(s.table[r.id], a.start) then a.held + [r] else a.held))))
    case ClaimCommit(w, rows, n) =>
      && w in s.workers && s.workers[w].Scanning?
      && (var a := s.workers[w];
          && (a.next >= |a.found| || |a.held| >= a.limit)
          && multiset(rows) == multiset(Chosen(a.held)) && Fits(rows, n)
          && s' == SetWorker(s, w, Forwarding(Ids(rows[..n]), 0)).(
                     table := Lease(s.table, Ids(Chosen(a.held)), a.start + RECOVERY),
                     history := s.history + ClaimEvents(Chosen(a.held), a.start)))
    case Forward(w) =>
      w in s.workers && s.workers[w].Forwarding? && s.workers[w].done < |s.workers[w].batch|
      && (var a := s.workers[w];
          s' == SetWorker(s, w, a.(done := a.done + 1)).(forwarded := s.forwarded + {a.batch[a.done]}))
    case EndBatch(w) =>
      w in s.workers && s.workers[w].Forwarding? && s.workers[w].done <= |s.workers[w].batch|
      && s' == SetWorker(s, w, Idle).(calls := s.calls + CallsAfter(s.workers[w].batch, s.workers[w].done))
    case Crash(w) =>
      w in s.workers && s' == SetWorker(s, w, Idle)
    case Carry(call) =>
      && call in s.calls && (forall w, id :: id in call.ids ==> !LockedBy(s, w, id))
      && s' == (if call.AckCall? then s.(table := Remove(s.table, call.ids))
                else s.(table := Unlease(s.table, call.ids), history := s.history + ReleaseEvents(s.table, call.ids)))
    case Outside(call) =>
      s' == s.(calls := s.calls + {call})
    case Tick(later) =>
      s.now <= later && s' == s.(now := later)
  }

  ghost predicate Initial(s: State) {
    s.table == map[] && s.used == {} && s.history == [] && s.workers == map[] && s.calls == {} && s.forwarded == {}
  }

  ghost predicate Run(states: seq<State>, steps: seq<Step>) {
    && |states| == |steps| + 1 && Initial(states[0])
    && forall i :: 0 <= i < |steps| ==> Next(states[i], steps[i], states[i + 1])
  }

  /** The lease of a message as the history tells it. */
  function LastLease(history: seq<Event>, id: Id): Option<Time> {
    if history == [] then None
    else
      match history[|history| - 1]
      case Claimed(x, start) => if x == id then Some(start + RECOVERY) else LastLease(history[..|history| - 1], id)
      case Released(x) => if x == id then None else LastLease(history[..|history| - 1], id)
  }

  ghost predicate Free(lease: Option<Time>, start: Time) { lease.None? || lease.value <= start }

  /** Every claim in the history found the message free. */
  ghost predicate Spaced(history: seq<Event>) {
    forall j :: 0 <= j < |history| && history[j].Claimed? ==>
      Free(LastLease(history[..j], history[j].id), history[j].start)
  }

  ghost predicate TableAgrees(s: State) {
    && (forall id :: id in s.table ==> s.table[id].row.id == id && id in s.used && s.table[id].lease == LastLease(s.history, id))
    && (forall id :: id !in s.used ==> LastLease(s.history, id) == None)
  }

  /** The rows that a claim has found and locked so far. */
  ghost predicate GoodClaim(s: State, a: Activity)
    requires a.Scanning?
  {
    && a.next <= |a.found| && InOrder(a.found)
    && (forall r :: r in a.found ==> r.id in s.used && (r.id in s.table ==> s.table[r.id].row == r))
    && InOrder(a.held) && |a.held| <= a.limit
    && (forall r :: r in a.held ==> r in a.found[..a.next])
    && (forall r :: r in a.held ==> r.id in s.table && Ready(s.table[r.id], a.start))
  }

  ghost predicate GoodWorker(s: State, a: Activity) {
    match a
    case Scanning(_, _, _, _, _) => GoodClaim(s, a)
    case Forwarding(batch, done) => done <= |batch| && forall i :: 0 <= i < done ==> batch[i] in s.forwarded
    case _ => true
  }

  ghost predicate Exclusive(s: State) {
    forall v, w, id :: LockedBy(s, v, id) && LockedBy(s, w, id) ==> v == w
  }

  ghost predicate Invariant(s: State) {
    && TableAgrees(s) && Spaced(s.history) && Exclusive(s)
    && forall w :: w in s.workers ==> GoodWorker(s, s.workers[w])
  }
}
