/** Circular waits, and the condition under which statements that lock several messages
    can come to one: acknowledgements and releases, each of which visits its messages in an
    order of the database's choice. */
module Deadlocks {
  import opened StringOrder
  import opened Transactions
  import opened TransactionProof
  import opened TransactionResults

  ghost predicate Reachable(s: State) {
    exists states, steps :: Run(states, steps) && states[|steps|] == s
  }

  lemma StepReaches(s: State, step: Step, s': State)
    requires Reachable(s) && Next(s, step, s')
    ensures Reachable(s')
  {
    hide Next;
    var states, steps :| Run(states, steps) && states[|steps|] == s;
    var states', steps' := states + [s'], steps + [step];
    assert Run(states', steps') && states'[|steps'|] == s';
  }

  lemma {:induction false} ReachableInvariant(s: State)
    requires Reachable(s)
    ensures Invariant(s)
  {
    hide Invariant;
    var states, steps :| Run(states, steps) && states[|steps|] == s;
    RunKeepsInvariant(states, steps, |steps|);
  }

  // ---- a deadlock is over messages alone -------------------------------------

  /** The chain of waits returns to where it began. */
  ghost predicate Cycle(s: State, chain: seq<Tx>) {
    && |chain| >= 2 && chain[0] == chain[|chain| - 1]
    && forall i :: 0 <= i < |chain| - 1 ==> Waits(s, chain[i], chain[i + 1], true)
  }

  ghost predicate WaitsForMessage(s: State, t: Tx, u: Tx) { exists id :: WaitsForRow(s, t, id, u) }

  /** Who has a counter row that somebody waits for can only wait for a counter row. */
  lemma CounterWaitsGoOn(s: State, t: Tx, k: Key, u: Tx, v: Tx)
    requires Invariant(s) && WaitsFor(s, t, k, u) && Waits(s, u, v, true)
    ensures Waits(s, u, v, false)
  {
    hide Counted, GoodEnqueue, Apart;
    assert Good(s, s.open[u]);
  }

  lemma {:induction false} CounterWaitsFollow(s: State, chain: seq<Tx>, i: nat, j: nat)
    requires Invariant(s) && Cycle(s, chain) && i <= j < |chain| - 1 && Waits(s, chain[i], chain[i + 1], false)
    ensures Waits(s, chain[j], chain[j + 1], false)
    decreases j
  {
    hide Invariant;
    if i < j {
      CounterWaitsFollow(s, chain, i, j - 1);
      var k :| WaitsFor(s, chain[j - 1], k, chain[j]);
      CounterWaitsGoOn(s, chain[j - 1], k, chain[j], chain[j + 1]);
    }
  }

  /** Where the invariant holds, and so in every reachable state, a circular wait is over
      messages only. */
  lemma CycleIsOverMessages(s: State, chain: seq<Tx>, i: nat)
    requires Invariant(s) && Cycle(s, chain) && i < |chain| - 1
    ensures WaitsForMessage(s, chain[i], chain[i + 1])
  {
    hide Invariant;
    assert Waits(s, chain[i], chain[i + 1], true);
    if Waits(s, chain[i], chain[i + 1], false) {
      var last := |chain| - 2;
      CounterWaitsFollow(s, chain, i, last);
      var k :| WaitsFor(s, chain[last], k, chain[0]);
      CounterWaitsGoOn(s, chain[last], k, chain[0], chain[1]);
      forall j | 0 <= j < |chain| - 1 ensures Waits(s, chain[j], chain[j + 1], false) {
        CounterWaitsFollow(s, chain, 0, j);
      }
      NoCircle(s, chain);
    }
  }

  lemma NoCircle(s: State, chain: seq<Tx>)
    requires Invariant(s) && |chain| >= 2 && forall i :: 0 <= i < |chain| - 1 ==> Waits(s, chain[i], chain[i + 1], false)
    ensures chain[0] != chain[|chain| - 1]
  {
    hide Invariant, Waits, PlaceOf;
    var rank: Ranking := (_, id) => id;
    ChainAdvances(s, chain, false, rank);
    BelowIrreflexive(PlaceOf(s.open[chain[0]], rank).key);
  }

  /** An acknowledgement, or a release: what can wait for a message. */
  predicate Visits(x: Txn) { x.AnAck? || (x.AMarking? && x.m.waits) }

  function KeyOf(x: Txn): Key
    requires Visits(x)
  {
    if x.AnAck? then x.a.key else x.m.key
  }

  function OrderOf(x: Txn): seq<Id>
    requires Visits(x)
  {
    if x.AnAck? then x.a.ids else x.m.ids
  }

  /** How many messages it has visited. */
  function PositionOf(x: Txn): nat {
    match x
    case AnEnqueue(_) => 0
    case AnAck(a) => Visited(a)
    case AMarking(m) => m.i
  }

  /** In every circular wait of every run, whatever else is open, each transaction is at a
      message that the next one in the circle has visited. */
  lemma EveryCycleCrosses(s: State, chain: seq<Tx>, i: nat)
    requires Reachable(s) && Cycle(s, chain) && i < |chain| - 1
    ensures chain[i] in s.open && chain[i + 1] in s.open
    ensures var x, y := s.open[chain[i]], s.open[chain[i + 1]];
      && Visits(x) && Visits(y) && KeyOf(x) == KeyOf(y)
      && PositionOf(x) < |OrderOf(x)| && PositionOf(y) <= |OrderOf(y)|
      && OrderOf(x)[PositionOf(x)] in OrderOf(y)[..PositionOf(y)]
  {
    hide Reachable, Invariant, Cycle;
    ReachableInvariant(s);
    CycleIsOverMessages(s, chain, i);
    NextInCycle(s, chain, i);
    MeetsVisited(s, chain[i], chain[i + 1]);
  }

  ghost predicate WaitsForSome(s: State, t: Tx) { exists v :: WaitsForMessage(s, t, v) }

  lemma NextInCycle(s: State, chain: seq<Tx>, i: nat)
    requires Invariant(s) && Cycle(s, chain) && i < |chain| - 1
    ensures WaitsForSome(s, chain[i + 1])
  {
    hide Invariant, WaitsForMessage;
    var next := if i + 2 < |chain| then i + 1 else 0;
    assert chain[next] == chain[i + 1];
    CycleIsOverMessages(s, chain, next);
  }

  lemma MeetsVisited(s: State, t: Tx, u: Tx)
    requires Invariant(s) && WaitsForMessage(s, t, u) && WaitsForSome(s, u)
    ensures t in s.open && u in s.open
    ensures var x, y := s.open[t], s.open[u];
      && Visits(x) && Visits(y) && KeyOf(x) == KeyOf(y)
      && PositionOf(x) < |OrderOf(x)| && PositionOf(y) <= |OrderOf(y)|
      && OrderOf(x)[PositionOf(x)] in OrderOf(y)[..PositionOf(y)]
  {
    hide Counted, GoodEnqueue, Apart;
    assert Good(s, s.open[u]);
  }

  // ---- statements over one content of the inboxes ----------------------------

  /** An acknowledgement or a release, with its messages in visiting order. */
  datatype Work = Work(key: Key, ids: seq<Id>, deletes: bool)

  type Works = map<Tx, Work>

  /** The stored messages among the first `n`. */
  function Visit(s: State, w: Work, n: nat): set<Id>
    requires n <= |w.ids|
  {
    set id | id in w.ids[..n] && (w.key, id) in s.stored
  }

  /** The statement after its first `n` messages. */
  function AfterRows(s: State, w: Work, n: nat): Txn
    requires n <= |w.ids|
  {
    if w.deletes then AnAck(Ack(w.key, w.ids, Delete(n), {}, map[], Visit(s, w, n)))
    else AMarking(Marking(w.key, w.ids, n, true, Visit(s, w, n)))
  }

  /** How far each statement has come. */
  ghost predicate Within(works: Works, at: map<Tx, nat>) {
    at.Keys == works.Keys && forall t :: t in works ==> at[t] <= |works[t].ids|
  }

  function Start(works: Works): map<Tx, nat> { map t | t in works :: 0 }

  /** All statements open, each after as many messages as `at` says. */
  ghost function At(s: State, works: Works, at: map<Tx, nat>): State
    requires Within(works, at)
  {
    s.(open := map t | t in works :: AfterRows(s, works[t], at[t]))
  }

  ghost predicate Names(works: Works, id: Id) { exists t :: t in works && id in works[t].ids }

  /** What may happen once the works have begun: their statements, commits and aborts, and
      those of any enqueues, which are of new messages, and of any claims. */
  ghost predicate Allowed(works: Works, step: Step) {
    match step
    case BeginEnqueue(_, id, _) => !Names(works, id)
    case BeginAck(_, _, _) => false
    case BeginMarking(_, _, _, waits) => !waits
    case _ => true
  }

  ghost predicate Schedule(works: Works, states: seq<State>, steps: seq<Step>, s: State) {
    && |states| == |steps| + 1 && states[0] == s
    && forall i :: 0 <= i < |steps| ==> Allowed(works, steps[i]) && Next(states[i], steps[i], states[i + 1])
  }

  ghost predicate Leads(works: Works, s: State, s': State) {
    exists states, steps :: Schedule(works, states, steps, s) && states[|steps|] == s'
  }

  /** Some schedule of the works from their start comes to a circular wait. */
  ghost predicate CanDeadlock(s: State, works: Works) {
    exists s', chain :: Leads(works, At(s, works, Start(works)), s') && Cycle(s', chain)
  }

  // ---- the condition ---------------------------------------------------------

  /** No two statements have visited the same stored message. */
  ghost predicate Disjoint(s: State, works: Works, at: map<Tx, nat>)
    requires Within(works, at)
  {
    forall t, u :: t in works && u in works && t != u && works[t].key == works[u].key ==>
      Visit(s, works[t], at[t]) !! Visit(s, works[u], at[u])
  }

  /** The next message of `t` is a stored one that `u` has visited. */
  ghost predicate Meets(s: State, works: Works, at: map<Tx, nat>, t: Tx, u: Tx)
    requires Within(works, at)
  {
    && t in works && u in works && t != u && works[t].key == works[u].key && at[t] < |works[t].ids|
    && works[t].ids[at[t]] in Visit(s, works[u], at[u])
  }

  /** The orders cross: at some disjoint prefixes, some statements meet each the prefix of
      the next, all the way round. */
  ghost predicate Crossing(s: State, works: Works, at: map<Tx, nat>, chain: seq<Tx>) {
    && Within(works, at) && Disjoint(s, works, at)
    && |chain| >= 2 && chain[0] == chain[|chain| - 1]
    && forall i :: 0 <= i < |chain| - 1 ==> Meets(s, works, at, chain[i], chain[i + 1])
  }

  predicate Deletes(works: Works, t: Tx, r: (Key, Id)) {
    t in works && works[t].deletes && works[t].key == r.0 && r.1 in works[t].ids
  }

  /** The tables once the works in `done` have committed. */
  ghost function After(s: State, works: Works, done: set<Tx>): State {
    s.(stored := set r | r in s.stored && !(exists t :: t in done && Deletes(works, t, r)))
  }
}
