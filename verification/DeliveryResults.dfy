/** The promises of the inbox over whole runs. */
module DeliveryResults {
  import opened Wrappers
  import opened InboxRows
  import opened InboxTable
  import opened Claims
  import opened Delivery
  import opened DeliveryProof
  import Base64Url

  /** Since a claim and without a release the lease only moves on. */
  lemma {:induction false} LeaseMovesOn(history: seq<Event>, i: nat, j: nat, id: Id, start: Time)
    requires Spaced(history) && i < j <= |history| && history[i] == Claimed(id, start)
    requires Released(id) !in history[i..j]
    ensures LastLease(history[..j], id).Some? && LastLease(history[..j], id).value >= start + RECOVERY
    decreases j
  {
    var before := history[..j - 1];
    assert history[..j][..j - 1] == before && history[..j][j - 1] == history[j - 1];
    if i < j - 1 {
      assert history[i..j] == history[i..j - 1] + [history[j - 1]];
      assert history[j - 1] in history[i..j];
      LeaseMovesOn(history, i, j - 1, id, start);
      assert history[j - 1].Claimed? ==> Free(LastLease(before, history[j - 1].id), history[j - 1].start);
    }
  }

  /** Two claims of one message with no release of it in between began at least the
      recovery time apart. */
  lemma ClaimsAreApart(states: seq<State>, steps: seq<Step>, i: nat, j: nat, id: Id, first: Time, second: Time)
    requires Run(states, steps)
    requires var history := states[|steps|].history;
      && i < j < |history| && history[i] == Claimed(id, first) && history[j] == Claimed(id, second)
      && Released(id) !in history[i..j]
    ensures second >= first + 600_000_000
  {
    hide Next, TableAgrees, Exclusive, GoodWorker, LastLease;
    RunKeepsInvariant(states, steps, |steps|);
    var history := states[|steps|].history;
    LeaseMovesOn(history, i, j, id, first);
    assert Free(LastLease(history[..j], history[j].id), history[j].start);
  }

  /** Every claim of a run returns exactly what it leases: a prefix, by time and id, of
      the rows that it could lock, and not nothing if it could lock one that fits. */
  lemma LeasedIsReturned(states: seq<State>, steps: seq<Step>, i: nat)
    requires Run(states, steps) && i < |steps| && steps[i].ClaimCommit?
    ensures var s, s', w := states[i], states[i + 1], steps[i].w;
      var held, batch := s.workers[w].held, s'.workers[w].batch;
      && InOrder(held) && |held| <= s.workers[w].limit
      && |batch| <= |held| && (forall id :: id in batch <==> id in Ids(held[..|batch|]))
      && TotalCost(held[..|batch|]) <= BUDGET
      && (|batch| < |held| ==> TotalCost(held[..|batch| + 1]) > BUDGET)
      && (held != [] && Sized(held[0]) ==> batch != [])
      && (forall id :: id in s'.table ==>
            s'.table[id].lease == if id in batch then Some(s.workers[w].start + 600_000_000) else s.table[id].lease)
  {
    hide TableAgrees, Spaced, Exclusive, Chosen, Fits, Sized, Earlier, TotalCost;
    var s, s', w := states[i], states[i + 1], steps[i].w;
    RunKeepsInvariant(states, steps, i);
    var a, rows, n := s.workers[w], steps[i].rows, steps[i].n;
    assert Next(s, ClaimCommit(w, rows, n), s') && GoodWorker(s, a);
    LeasedFit(a.held, rows);
    PrefixChosen(a.held);
    assert rows[..n] == rows;
    SameIds(rows, Chosen(a.held));
    ChosenFit(a.held);
    assert |multiset(rows)| == |rows| && |multiset(Chosen(a.held))| == |Chosen(a.held)|;
    assert Chosen(a.held) == a.held[..n];
    if Chosen(a.held) != [] { assert Chosen(a.held)[0] in multiset(rows); }
  }

  lemma SameIds(a: seq<Row>, b: seq<Row>)
    requires multiset(a) == multiset(b)
    ensures forall id :: id in Ids(a) <==> id in Ids(b)
  {
    SomeIds(a, b);
    SomeIds(b, a);
  }

  lemma SomeIds(a: seq<Row>, b: seq<Row>)
    requires multiset(a) == multiset(b)
    ensures forall id :: id in Ids(a) ==> id in Ids(b)
  {
    forall id | id in Ids(a) ensures id in Ids(b) {
      var i :| 0 <= i < |a| && a[i].id == id;
      assert a[i] in multiset(b);
      var j :| 0 <= j < |b| && b[j] == a[i];
      assert Ids(b)[j] == id;
    }
  }

  // ---- what a claim finds ----------------------------------------------------

  /** A claim of the message that no release has followed. */
  ghost predicate Unreleased(history: seq<Event>, j: nat, id: Id, start: Time) {
    j < |history| && history[j] == Claimed(id, start) && Released(id) !in history[j..]
  }

  /** The lease by the history is that of the last claim without a release. */
  lemma {:induction false} LastLeaseIs(history: seq<Event>, id: Id)
    ensures match LastLease(history, id)
            case None => forall j: nat, start: Time :: !Unreleased(history, j, id, start)
            case Some(until) => exists j: nat, start: Time :: Unreleased(history, j, id, start) && until == start + RECOVERY
  {
    if history != [] {
      var n := |history| - 1;
      var before, last := history[..n], history[n];
      LastLeaseIs(before, id);
      if last == Released(id) {
        forall j: nat, start: Time ensures !Unreleased(history, j, id, start) {
          if j <= n { assert history[j..][n - j] == last; }
        }
      } else if last.Claimed? && last.id == id {
        assert history[n..] == [last];
        assert Unreleased(history, n, id, last.start);
      } else {
        forall j: nat, start: Time ensures Unreleased(history, j, id, start) <==> Unreleased(before, j, id, start) {
          if j < n { assert history[j..] == before[j..] + [last]; }
        }
      }
    }
  }

  /** The snapshot of a claim has exactly the stored messages of which every claim that
      was not released began at least the recovery time, ten minutes, before. */
  lemma SnapshotFinds(states: seq<State>, steps: seq<Step>, i: nat, id: Id)
    requires Run(states, steps) && i < |steps| && steps[i].Snapshot?
    ensures steps[i].w in states[i].workers && states[i].workers[steps[i].w].Begun?
    ensures id in states[i].table ==>
      (states[i].table[id].row in steps[i].found <==>
       forall j: nat, start: Time :: Unreleased(states[i].history, j, id, start) ==> start + 600_000_000 <= states[i].workers[steps[i].w].start)
  {
    hide Spaced, Exclusive, GoodWorker, LastLease, InOrder;
    var s, w := states[i], steps[i].w;
    RunKeepsInvariant(states, steps, i);
    assert Next(s, steps[i], states[i + 1]);
    if id in s.table {
      LastLeaseIs(s.history, id);
      assert s.table[id].lease == LastLease(s.history, id) && s.table[id].row.id == id;
      var now := s.workers[w].start;
      assert s.table[id].row in steps[i].found <==> Ready(s.table[id], now);
      forall j: nat, start: Time | Unreleased(s.history, j, id, start) && LastLease(s.history, id).Some? && LastLease(s.history, id).value <= now
        ensures start + RECOVERY <= now
      {
        LeaseMovesOn(s.history, j, |s.history|, id, start);
        assert s.history[..|s.history|] == s.history && s.history[j..|s.history|] == s.history[j..];
      }
    }
  }

  /** At step `j` the worker's claim passed the row by: it was locked, gone, or leased
      beyond the claim's start. */
  ghost predicate PassedBy(states: seq<State>, steps: seq<Step>, j: nat, w: Worker, r: Row, start: Time) {
    && j < |steps| && j < |states| && steps[j].Scan? && steps[j].w == w && w in states[j].workers
    && (var a := states[j].workers[w]; a.Scanning? && a.start == start && a.next < |a.found| && a.found[a.next] == r)
    && (steps[j].locked || r.id !in states[j].table || (states[j].table[r.id].lease.Some? && states[j].table[r.id].lease.value > start))
  }

  /** The step of a worker that is at a later row after it: it had come there before, or
      it has just tried row `p`. */
  lemma ScanStep(s: State, step: Step, s': State, w: Worker, p: nat)
    requires Next(s, step, s') && w in s'.workers && s'.workers[w].Scanning?
    requires p < s'.workers[w].next && p < |s'.workers[w].found|
    ensures w in s.workers && s.workers[w].Scanning?
    ensures var a, a' := s.workers[w], s'.workers[w];
      && a.start == a'.start && a.found == a'.found && a.held <= a'.held && p <= a.next
      && (p == a.next ==> step.Scan? && step.w == w)
  {
    hide Chosen, Fits, Lease, Unlease, Remove, Ready;
  }

  /** A claim holds every row that it has come to, except for those it passed by. */
  lemma {:induction false} HeldOrPassedBy(states: seq<State>, steps: seq<Step>, i: nat, w: Worker, p: nat)
    requires Run(states, steps) && i < |states|
    requires w in states[i].workers && states[i].workers[w].Scanning?
    requires p < states[i].workers[w].next && p < |states[i].workers[w].found|
    ensures var a := states[i].workers[w];
      a.found[p] in a.held || exists j: nat :: j < i && PassedBy(states, steps, j, w, a.found[p], a.start)
  {
    hide Next, PassedBy;
    if i > 0 {
      var s, step, a := states[i - 1], steps[i - 1], states[i].workers[w];
      ScanStep(s, step, states[i], w, p);
      if p < s.workers[w].next {
        HeldOrPassedBy(states, steps, i - 1, w, p);
      } else if a.found[p] !in a.held {
        JustPassed(states, steps, i - 1, w);
      }
    }
  }

  lemma JustPassed(states: seq<State>, steps: seq<Step>, j: nat, w: Worker)
    requires Run(states, steps) && j < |steps| && steps[j].Scan? && steps[j].w == w
    ensures w in states[j].workers && w in states[j + 1].workers && states[j].workers[w].Scanning? && states[j + 1].workers[w].Scanning?
    ensures var a := states[j].workers[w];
      a.next < |a.found| && (a.found[a.next] in states[j + 1].workers[w].held || PassedBy(states, steps, j, w, a.found[a.next], a.start))
  {
    assert Next(states[j], steps[j], states[j + 1]);
    var a := states[j].workers[w];
    var held := states[j + 1].workers[w].held;
    assert held == a.held || held[|held| - 1] == a.found[a.next];
  }

  /** So a claim that commits with less than its limit holds all that it found, except for
      what it passed by. */
  lemma ClaimTakesAll(states: seq<State>, steps: seq<Step>, i: nat, p: nat)
    requires Run(states, steps) && i < |steps| && steps[i].ClaimCommit?
    ensures var w := steps[i].w; w in states[i].workers && states[i].workers[w].Scanning?
    ensures var w := steps[i].w;
      var a := states[i].workers[w];
      p < |a.found| && |a.held| < a.limit ==>
        a.found[p] in a.held || exists j: nat :: j < i && PassedBy(states, steps, j, w, a.found[p], a.start)
  {
    hide PassedBy, Chosen, Fits;
    var w := steps[i].w;
    assert Next(states[i], steps[i], states[i + 1]);
    var a := states[i].workers[w];
    if p < |a.found| && |a.held| < a.limit { HeldOrPassedBy(states, steps, i, w, p); }
  }

  // ---- from an enqueue to a claim --------------------------------------------

  lemma {:induction false} StoredWasEnqueued(states: seq<State>, steps: seq<Step>, i: nat, id: Id)
    requires Run(states, steps) && i < |states| && id in states[i].table
    ensures exists j :: 0 <= j < i && steps[j] == Enqueued(states[i].table[id].row)
  {
    hide Chosen, Fits;
    if i > 0 {
      var s, s' := states[i - 1], states[i];
      assert Next(s, steps[i - 1], s');
      if id in s.table && s.table[id].row == s'.table[id].row {
        StoredWasEnqueued(states, steps, i - 1, id);
        var j :| 0 <= j < i - 1 && steps[j] == Enqueued(s.table[id].row);
      } else {
        assert steps[i - 1] == Enqueued(s'.table[id].row);
      }
    }
  }

  /** Every message that a claim returns was enqueued with just that content, and its text
      decodes to the sealed bytes of that enqueue. */
  lemma ReturnedWasEnqueued(states: seq<State>, steps: seq<Step>, i: nat, items: seq<Envelope>, k: nat)
    requires Run(states, steps) && i < |steps| && steps[i].ClaimCommit? && steps[i].n <= |steps[i].rows|
    requires |items| == steps[i].n && forall j :: 0 <= j < |items| ==> items[j] == EnvelopeOf(steps[i].rows[j])
    requires k < |items|
    ensures states[i + 1].workers[steps[i].w] == Forwarding(Ids(steps[i].rows[..|items|]), 0)
    ensures exists j :: 0 <= j < i && steps[j].Enqueued? && items[k].id == steps[j].row.id
                        && Base64Url.Decode(items[k].sealed) == Some(steps[j].row.sealed)
  {
    hide TableAgrees, Spaced, Exclusive, Chosen, Fits, EnvelopeOf, Base64Url.Decode, Ready, Earlier, TotalCost;
    var s, r := states[i], steps[i].rows[k];
    RunKeepsInvariant(states, steps, i);
    assert Next(s, steps[i], states[i + 1]) && GoodWorker(s, s.workers[steps[i].w]);
    var held := s.workers[steps[i].w].held;
    PrefixChosen(held);
    assert r in multiset(steps[i].rows);
    assert r in held && s.table[r.id].row == r by { HeldIsStored(s, s.workers[steps[i].w], r); }
    StoredWasEnqueued(states, steps, i, r.id);
    EnvelopeCarries(r);
  }

  lemma HeldIsStored(s: State, a: Activity, r: Row)
    requires a.Scanning? && GoodClaim(s, a) && r in a.held
    ensures r.id in s.table && s.table[r.id].row == r
  {
    assert r in a.found[..a.next];
    assert r in a.found;
  }

  // ---- what requests do ------------------------------------------------------

  /** A message that was acknowledged is gone for good. */
  lemma {:induction false} AckedIsGone(states: seq<State>, steps: seq<Step>, k: nat, i: nat, id: Id)
    requires Run(states, steps) && k < i < |states| && steps[k].Carry? && steps[k].call.AckCall?
    requires id in steps[k].call.ids && id in states[k].used
    ensures id in states[i].used && id !in states[i].table
    decreases i
  {
    hide Chosen, Fits;
    assert Next(states[i - 1], steps[i - 1], states[i]);
    if k < i - 1 { AckedIsGone(states, steps, k, i - 1, id); }
  }

  /** So no claim returns it any more, also none that had found it before. */
  lemma AckedIsNotReturned(states: seq<State>, steps: seq<Step>, k: nat, i: nat, id: Id)
    requires Run(states, steps) && k < i < |steps| && steps[k].Carry? && steps[k].call.AckCall?
    requires id in steps[k].call.ids && id in states[k].used && steps[i].ClaimCommit?
    ensures id !in Ids(steps[i].rows)
  {
    hide TableAgrees, Spaced, Exclusive, Chosen, Fits, Ready, Earlier;
    AckedIsGone(states, steps, k, i, id);
    RunKeepsInvariant(states, steps, i);
    var s := states[i];
    assert Next(s, steps[i], states[i + 1]) && GoodWorker(s, s.workers[steps[i].w]);
    PrefixChosen(s.workers[steps[i].w].held);
    forall r | r in steps[i].rows ensures r.id != id {
      assert r in multiset(steps[i].rows);
      HeldIsStored(s, s.workers[steps[i].w], r);
    }
  }

  /** A message that was released has no lease until a claim returns it again. */
  lemma {:induction false} ReleasedStaysFree(states: seq<State>, steps: seq<Step>, k: nat, i: nat, id: Id)
    requires Run(states, steps) && k < i < |states| && steps[k].Carry? && steps[k].call.ReleaseCall?
    requires id in steps[k].call.ids && id in states[k].used
    requires forall m :: k < m < i && steps[m].ClaimCommit? ==> id !in Ids(steps[m].rows)
    ensures id in states[i].used && (id in states[i].table ==> states[i].table[id].lease.None?)
    decreases i
  {
    hide Chosen, Fits;
    var s, step, s' := states[i - 1], steps[i - 1], states[i];
    assert Next(s, step, s');
    if k < i - 1 {
      ReleasedStaysFree(states, steps, k, i - 1, id);
      if step.ClaimCommit? { SameIds(step.rows, Chosen(s.workers[step.w].held)); }
    }
  }

  /** So the next claim finds it at once. */
  lemma ReleasedIsFound(states: seq<State>, steps: seq<Step>, k: nat, i: nat, id: Id)
    requires Run(states, steps) && k < i < |steps| && steps[k].Carry? && steps[k].call.ReleaseCall?
    requires id in steps[k].call.ids && id in states[k].table && id in states[i].table && steps[i].Snapshot?
    requires forall m :: k < m < i && steps[m].ClaimCommit? ==> id !in Ids(steps[m].rows)
    ensures states[i].table[id].row in steps[i].found
  {
    hide Spaced, Exclusive, GoodWorker, LastLease, InOrder;
    RunKeepsInvariant(states, steps, k);
    RunKeepsInvariant(states, steps, i);
    ReleasedStaysFree(states, steps, k, i, id);
    assert Next(states[i], steps[i], states[i + 1]);
  }

  /** Nobody but a forwarder acknowledges what has not been forwarded. */
  ghost predicate Honest(s: State, step: Step) {
    step.Outside? && step.call.AckCall? ==> forall id :: id in step.call.ids ==> id in s.forwarded
  }

  ghost predicate Kept(s: State) {
    && (forall id :: id in s.used ==> id in s.table || id in s.forwarded)
    && (forall call, id :: call in s.calls && call.AckCall? && id in call.ids ==> id in s.forwarded)
  }

  lemma NextKeeps(s: State, step: Step, s': State)
    requires Invariant(s) && Kept(s) && Next(s, step, s') && Honest(s, step)
    ensures Kept(s')
  {
    hide TableAgrees, Spaced, Exclusive, LastLease, Fits, Chosen, GoodClaim, LockedBy;
    match step
    case EndBatch(w) =>
      var a := s.workers[w];
      assert GoodWorker(s, a);
      forall call, id | call in s'.calls && call.AckCall? && id in call.ids ensures id in s'.forwarded {
        if call !in s.calls {
          assert call == AckCall(a.batch[..a.done]);
        }
      }
    case _ =>
  }

  lemma {:induction false} RunKept(states: seq<State>, steps: seq<Step>, i: nat)
    requires Run(states, steps) && i < |states|
    requires forall k :: 0 <= k < i ==> Honest(states[k], steps[k])
    ensures Kept(states[i])
  {
    hide Next, Invariant;
    if i > 0 {
      RunKept(states, steps, i - 1);
      RunKeepsInvariant(states, steps, i - 1);
      NextKeeps(states[i - 1], steps[i - 1], states[i]);
    }
  }

  /** An accepted message is not replaced by another of its id. */
  lemma {:induction false} EnqueuedStays(states: seq<State>, steps: seq<Step>, k: nat, i: nat)
    requires Run(states, steps) && k < i < |states| && steps[k].Enqueued?
    ensures var row := steps[k].row;
      row.id in states[i].used && (row.id in states[i].table ==> states[i].table[row.id].row == row)
    decreases i
  {
    hide Chosen, Fits;
    assert Next(states[i - 1], steps[i - 1], states[i]);
    if k < i - 1 { EnqueuedStays(states, steps, k, i - 1); }
  }

  /** Only what a forwarder that claimed it has handed on counts as forwarded. */
  lemma {:induction false} ForwardedWas(states: seq<State>, steps: seq<Step>, i: nat, id: Id)
    requires Run(states, steps) && i < |states| && id in states[i].forwarded
    ensures exists j :: 0 <= j < i && ForwardsAt(states, steps, j, id)
  {
    hide Chosen, Fits;
    if i > 0 {
      assert Next(states[i - 1], steps[i - 1], states[i]);
      if id in states[i - 1].forwarded {
        ForwardedWas(states, steps, i - 1, id);
      } else {
        assert ForwardsAt(states, steps, i - 1, id);
      }
    }
  }

  ghost predicate ForwardsAt(states: seq<State>, steps: seq<Step>, j: nat, id: Id) {
    && j < |states| && j < |steps| && steps[j].Forward? && steps[j].w in states[j].workers
    && var a := states[j].workers[steps[j].w]; a.Forwarding? && a.done < |a.batch| && a.batch[a.done] == id
  }

  /** At least once: whatever the interleaving, the failures and the losses, every
      message that was accepted is still stored as it was, or has been forwarded. */
  lemma NothingLost(states: seq<State>, steps: seq<Step>, k: nat, i: nat)
    requires Run(states, steps) && k < i < |states| && steps[k].Enqueued?
    requires forall j :: 0 <= j < i ==> Honest(states[j], steps[j])
    ensures var row := steps[k].row;
      || (row.id in states[i].table && states[i].table[row.id].row == row)
      || exists j :: 0 <= j < i && ForwardsAt(states, steps, j, row.id)
  {
    hide ForwardsAt;
    var id := steps[k].row.id;
    EnqueuedStays(states, steps, k, i);
    RunKept(states, steps, i);
    if id !in states[i].table { ForwardedWas(states, steps, i, id); }
  }
}
