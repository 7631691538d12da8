/** Enqueues, acknowledgements, releases and claims as database transactions, one SQL
    statement at a time, and the row statements one row at a time, under READ COMMITTED:
      - `INSERT .. ON CONFLICT DO NOTHING` waits only for an open transaction that
        has inserted the same key;
      - `FOR UPDATE`, `UPDATE` and `DELETE` wait for the holder of the row's lock and
        then work on the newest committed row; with `SKIP LOCKED` they pass it by;
      - nothing of an open transaction is seen by another, and nothing of an aborted
        one remains. */
module Transactions {
  import opened MachineInts
  import opened StringOrder
  import opened Wrappers
  import opened Recipients

  type Key = string
  type Id = string
  type Tx = nat

  /** The next statement of an enqueue; `Ensure` and `Lock` are the two passes over
      the sorted keys. */
  datatype Stage = Ensure(i: nat) | Lock(i: nat) | Insert(i: nat) | Bump(i: nat) | Ready

  /** `made` are the counter rows inserted, `held` those locked, `pending` the
      counters written, `inserted` the inboxes with a new message. */
  datatype Enqueue = Enqueue(id: Id, to: seq<Key>, keys: seq<Key>, stage: Stage, made: set<Key>,
                             held: set<Key>, pending: map<Key, int>, inserted: seq<Key>)

  datatype AckStage = Delete(i: nat) | Adjust | Done

  /** `ids` are in the order in which the `DELETE` visits them, which is the database's
      choice; `gone` are the messages deleted. */
  datatype Ack = Ack(key: Key, ids: seq<Id>, stage: AckStage, held: set<Key>, pending: map<Key, int>, gone: set<Id>)

  /** A release, which waits for locked messages, or a claim, which skips them; both write
      leases only.  `marked` are the messages locked. */
  datatype Marking = Marking(key: Key, ids: seq<Id>, i: nat, waits: bool, marked: set<Id>)

  datatype Txn = AnEnqueue(e: Enqueue) | AnAck(a: Ack) | AMarking(m: Marking)

  /** `counts` and `stored` are the committed rows of `inbox_counts` and
      `inbox_messages`; `used` are the ids given out so far. */
  datatype State = State(counts: map<Key, int>, stored: set<(Key, Id)>, open: map<Tx, Txn>,
                         used: set<Id>, maxRequests: nat)

  function Made(x: Txn): set<Key> { if x.AnEnqueue? then x.e.made else {} }

  function Held(x: Txn): set<Key> {
    match x
    case AnEnqueue(e) => e.held
    case AnAck(a) => a.held
    case AMarking(_) => {}
  }

  /** The transaction has the message's row locked. */
  predicate LocksRow(x: Txn, k: Key, id: Id) {
    match x
    case AnEnqueue(_) => false
    case AnAck(a) => k == a.key && id in a.gone
    case AMarking(m) => k == m.key && id in m.marked
  }

  /** A counter as committed; 0 for a row that is not there. */
  function Base(s: State, k: Key): int { if k in s.counts then s.counts[k] else 0 }

  /** A counter as a transaction that has written `pending` sees it. */
  function Counter(s: State, pending: map<Key, int>, k: Key): int {
    if k in pending then pending[k] else Base(s, k)
  }

  /** `GREATEST(count - n, 0)`. */
  function Clamped(count: int, n: nat): int { if count - n > 0 then count - n else 0 }

  /** `u`'s uncommitted insert, or lock, of counter row `k` stops `t`. */
  ghost predicate WaitsFor(s: State, t: Tx, k: Key, u: Tx) {
    && t in s.open && u in s.open && t != u
    && match s.open[t] {
         case AnEnqueue(e) =>
           || (e.stage.Ensure? && e.stage.i < |e.keys| && k == e.keys[e.stage.i] && k in Made(s.open[u]))
           || (e.stage.Lock? && e.stage.i < |e.keys| && k == e.keys[e.stage.i] && k in Held(s.open[u]))
         case AnAck(a) =>
           a.stage == Adjust && k == a.key && k in s.counts && k in Held(s.open[u])
         case AMarking(_) => false
       }
  }

  /** `u`'s lock of a message's row stops `t`. */
  ghost predicate WaitsForRow(s: State, t: Tx, id: Id, u: Tx) {
    && t in s.open && u in s.open && t != u
    && match s.open[t] {
         case AnEnqueue(_) => false
         case AnAck(a) =>
           && a.stage.Delete? && a.stage.i < |a.ids| && id == a.ids[a.stage.i]
           && (a.key, id) in s.stored && LocksRow(s.open[u], a.key, id)
         case AMarking(m) =>
           && m.waits && m.i < |m.ids| && id == m.ids[m.i]
           && (m.key, id) in s.stored && LocksRow(s.open[u], m.key, id)
       }
  }

  ghost predicate Blocked(s: State, t: Tx) {
    (exists k, u :: WaitsFor(s, t, k, u)) || (exists id, u :: WaitsForRow(s, t, id, u))
  }

  /** One statement of an enqueue; `None` when the inbox is full. */
  function EnqueueStatement(s: State, e: Enqueue): Option<Enqueue> {
    match e.stage
    case Ensure(i) =>
      if i >= |e.keys| then Some(e.(stage := Lock(0)))
      else if e.keys[i] in s.counts || e.keys[i] in e.made then Some(e.(stage := Ensure(i + 1)))
      else Some(e.(stage := Ensure(i + 1), made := e.made + {e.keys[i]}, pending := e.pending[e.keys[i] := 0]))
    case Lock(i) =>
      if i >= |e.keys| then Some(e.(stage := Insert(0)))
      else if AsUsize(Counter(s, e.pending, e.keys[i])) >= s.maxRequests then None
      else Some(e.(stage := Lock(i + 1), held := e.held + {e.keys[i]}))
    case Insert(i) =>
      if i >= |e.to| then Some(e.(stage := Bump(0)))
      else if (e.to[i], e.id) in s.stored || e.to[i] in e.inserted then Some(e.(stage := Insert(i + 1)))
      else Some(e.(stage := Insert(i + 1), inserted := e.inserted + [e.to[i]]))
    case Bump(i) =>
      if i >= |e.inserted| then Some(e.(stage := Ready))
      else
        var k := e.inserted[i];
        Some(e.(stage := Bump(i + 1), pending := e.pending[k := Counter(s, e.pending, k) + 1]))
    case Ready => Some(e)
  }

  /** The `DELETE` of one row, its end, or the `UPDATE` of the counter. */
  function AckStatement(s: State, a: Ack): Ack {
    match a.stage
    case Delete(i) =>
      if i >= |a.ids| then a.(stage := if a.gone == {} then Done else Adjust)
      else if (a.key, a.ids[i]) in s.stored then a.(stage := Delete(i + 1), gone := a.gone + {a.ids[i]})
      else a.(stage := Delete(i + 1))
    case Adjust =>
      if a.key !in s.counts then a.(stage := Done)
      else a.(stage := Done, held := a.held + {a.key},
              pending := a.pending[a.key := Clamped(Counter(s, a.pending, a.key), |a.gone|)])
    case Done => a
  }

  /** One row of a release or a claim; `taken` is whether another transaction has it
      locked. */
  function MarkingStatement(s: State, m: Marking, taken: bool): Marking
    requires m.i < |m.ids|
  {
    if (m.key, m.ids[m.i]) in s.stored && !taken then m.(i := m.i + 1, marked := m.marked + {m.ids[m.i]})
    else m.(i := m.i + 1)
  }

  ghost predicate Taken(s: State, t: Tx, k: Key, id: Id) {
    exists u :: u in s.open && u != t && LocksRow(s.open[u], k, id)
  }

  function EnqueuedRows(e: Enqueue): set<(Key, Id)> { set k | k in e.inserted :: (k, e.id) }

  function AckedRows(a: Ack): set<(Key, Id)> { set id | id in a.gone :: (a.key, id) }

  function Committed(s: State, x: Txn): State {
    match x
    case AnEnqueue(e) => s.(counts := s.counts + e.pending, stored := s.stored + EnqueuedRows(e))
    case AnAck(a) => s.(counts := s.counts + a.pending, stored := s.stored - AckedRows(a))
    case AMarking(_) => s
  }

  predicate Finished(x: Txn) {
    match x
    case AnEnqueue(e) => e.stage == Ready
    case AnAck(a) => a.stage == Done
    case AMarking(m) => m.i >= |m.ids|
  }

  datatype Step =
    | BeginEnqueue(t: Tx, id: Id, parts: seq<Key>)
    | BeginAck(t: Tx, key: Key, ids: seq<Id>)
    | BeginMarking(t: Tx, key: Key, ids: seq<Id>, waits: bool)
    | Statement(t: Tx)
    | Commit(t: Tx)
    | Abort(t: Tx)

  /** A failed capacity check, a database error and a lost connection all abort. */
  ghost predicate Next(s: State, step: Step, s': State) {
    match step
    case BeginEnqueue(t, id, parts) =>
      && t !in s.open && id !in s.used && 1 <= |parts| <= MAX_INBOX_RECIPIENTS
      && (var to := FirstOccurrences(parts);
          s' == s.(used := s.used + {id},
                   open := s.open[t := AnEnqueue(Enqueue(id, to, Sort(to), Ensure(0), {}, {}, map[], []))]))
    case BeginAck(t, key, ids) =>
      && t !in s.open
      && s' == s.(open := s.open[t := AnAck(Ack(key, ids, Delete(0), {}, map[], {}))])
    case BeginMarking(t, key, ids, waits) =>
      && t !in s.open
      && s' == s.(open := s.open[t := AMarking(Marking(key, ids, 0, waits, {}))])
    case Statement(t) =>
      && t in s.open && !Finished(s.open[t]) && !Blocked(s, t)
      && (match s.open[t]
          case AnAck(a) => s' == s.(open := s.open[t := AnAck(AckStatement(s, a))])
          case AMarking(m) => s' == s.(open := s.open[t := AMarking(MarkingStatement(s, m, Taken(s, t, m.key, m.ids[m.i])))])
          case AnEnqueue(e) =>
            match EnqueueStatement(s, e)
            case None => s' == s.(open := s.open - {t})
            case Some(e') => s' == s.(open := s.open[t := AnEnqueue(e')]))
    case Commit(t) =>
      && t in s.open && Finished(s.open[t])
      && s' == Committed(s, s.open[t]).(open := s.open - {t})
    case Abort(t) =>
      && t in s.open && s' == s.(open := s.open - {t})
  }

  ghost predicate Initial(s: State) {
    s.counts == map[] && s.stored == {} && s.open == map[] && s.used == {} && s.maxRequests < USIZE
  }

  ghost predicate Run(states: seq<State>, steps: seq<Step>) {
    && |states| == |steps| + 1 && Initial(states[0])
    && forall i :: 0 <= i < |steps| ==> Next(states[i], steps[i], states[i + 1])
  }

  /** The stored messages of one inbox. */
  function Inbox(stored: set<(Key, Id)>, k: Key): set<(Key, Id)> {
    set r | r in stored && r.0 == k
  }

  /** Every counter is the number of stored messages, and within the limit. */
  ghost predicate Counted(s: State) {
    && (forall k :: k in s.counts ==> s.counts[k] == |Inbox(s.stored, k)| <= s.maxRequests)
    && (forall r :: r in s.stored ==> r.0 in s.counts && r.1 in s.used)
  }

  /** How many keys the first pass has ensured, and the second locked. */
  function Ensured(e: Enqueue): nat { if e.stage.Ensure? then e.stage.i else |e.keys| }

  function Locked(e: Enqueue): nat {
    if e.stage.Ensure? then 0 else if e.stage.Lock? then e.stage.i else |e.keys|
  }

  function Inserted(e: Enqueue): nat {
    if e.stage.Ensure? || e.stage.Lock? then 0 else if e.stage.Insert? then e.stage.i else |e.to|
  }

  function Bumped(e: Enqueue): nat {
    if e.stage.Bump? then e.stage.i else if e.stage.Ready? then |e.to| else 0
  }

  ghost predicate Shaped(e: Enqueue) {
    && Distinct(e.to) && Ascending(e.keys) && (forall k :: k in e.keys <==> k in e.to)
    && Ensured(e) <= |e.keys| && Locked(e) <= |e.keys| && Inserted(e) <= |e.to| && Bumped(e) <= |e.to|
  }

  ghost predicate Progress(s: State, e: Enqueue)
    requires Shaped(e)
  {
    && (forall k :: k in e.made ==> k in e.keys[..Ensured(e)] && k !in s.counts)
    && (forall k :: k in e.keys[..Ensured(e)] ==> k in s.counts || k in e.made)
    && (forall k :: k in e.held <==> k in e.keys[..Locked(e)])
    && e.inserted == e.to[..Inserted(e)]
  }

  ghost predicate GoodEnqueue(s: State, e: Enqueue) {
    && Shaped(e) && Progress(s, e)
    && e.id in s.used && (forall r :: r in s.stored ==> r.1 != e.id)
    && (forall k :: k in e.held ==> Base(s, k) < s.maxRequests)
    && (forall k :: k in e.pending <==> k in e.made || k in e.to[..Bumped(e)])
    && (forall k :: k in e.pending ==> e.pending[k] == Base(s, k) + if k in e.to[..Bumped(e)] then 1 else 0)
  }

  /** How many ids the `DELETE` has visited. */
  function Visited(a: Ack): nat { if a.stage.Delete? then a.stage.i else |a.ids| }

  ghost predicate GoodAck(s: State, a: Ack) {
    && Visited(a) <= |a.ids|
    && (forall id :: id in a.gone ==> (a.key, id) in s.stored && id in a.ids[..Visited(a)])
    && if a.stage == Done && a.gone != {}
       then a.held == {a.key} && a.key in s.counts && a.pending == map[a.key := s.counts[a.key] - |a.gone|]
       else a.held == {} && a.pending == map[] && (a.stage == Adjust ==> a.gone != {})
  }

  ghost predicate GoodMarking(s: State, m: Marking) {
    m.i <= |m.ids| && forall id :: id in m.marked ==> (m.key, id) in s.stored && id in m.ids[..m.i]
  }

  ghost predicate Good(s: State, x: Txn) {
    match x
    case AnEnqueue(e) => GoodEnqueue(s, e)
    case AnAck(a) => GoodAck(s, a)
    case AMarking(m) => GoodMarking(s, m)
  }

  /** Two open transactions never share a counter row, an id or a locked message. */
  ghost predicate Apart(x: Txn, y: Txn) {
    && Held(x) !! Held(y) && Made(x) !! Made(y)
    && (x.AnEnqueue? && y.AnEnqueue? ==> x.e.id != y.e.id)
    && (forall k, id :: LocksRow(x, k, id) ==> !LocksRow(y, k, id))
  }

  ghost predicate Invariant(s: State) {
    && Counted(s) && s.maxRequests < USIZE
    && (forall t :: t in s.open ==> Good(s, s.open[t]))
    && (forall t, u :: t in s.open && u in s.open && t != u ==> Apart(s.open[t], s.open[u]))
  }
}
