/** The actor that shares one connection to Chrome: calls are answered by id, events
    wake waiters, and requests are taken in the order in which they were queued. */
module Cdp {
  import opened Wrappers

  /** The sender's end of a one-shot channel. */
  type Handle = nat

  datatype Request =
    | Call(target: Option<string>, name: string, reply: Handle)
    | WaitEvent(session: string, name: string, reply: Handle)

  /** What Chrome sends: an answer to a call, an event of a session, or anything else. */
  datatype Message = Answer(id: nat, result: Result<string>) | Event(session: string, name: string) | Noise

  datatype Waiter = Waiter(session: string, name: string, reply: Handle)

  /** A call as sent, and the answer that a handle was given, with its message's id. */
  datatype Sent = Sent(id: nat, target: Option<string>, name: string, reply: Handle)

  datatype Reply = Reply(reply: Handle, id: Option<nat>, result: Result<string>)

  predicate Matches(w: Waiter, session: string, name: string) { w.session == session && w.name == name }

  /** Every matching waiter is fired once; the others stay, in some order. */
  ghost predicate Swept(waiters: seq<Waiter>, session: string, name: string, kept: seq<Waiter>, fired: seq<Waiter>) {
    && multiset(waiters) == multiset(kept) + multiset(fired)
    && (forall w :: w in fired ==> Matches(w, session, name))
    && (forall w :: w in kept ==> !Matches(w, session, name))
  }

  lemma SwapRemoved(w: seq<Waiter>, i: nat)
    requires i < |w|
    ensures multiset(w) == multiset(w[i := w[|w| - 1]][..|w| - 1]) + multiset{w[i]}
  {
    var n := |w| - 1;
    assert w == w[..n] + [w[n]];
    if i < n {
      assert w[i := w[n]][..n] == w[..n][i := w[n]];
    } else {
      assert w[i := w[n]][..n] == w[..n];
    }
  }

  /** The loop over `waiters` with `swap_remove`. */
  method Sweep(waiters: seq<Waiter>, session: string, name: string) returns (kept: seq<Waiter>, fired: seq<Waiter>)
    ensures Swept(waiters, session, name, kept, fired)
  {
    kept, fired := waiters, [];
    var i := 0;
    while i < |kept|
      invariant 0 <= i <= |kept|
      invariant multiset(waiters) == multiset(kept) + multiset(fired)
      invariant forall w :: w in fired ==> Matches(w, session, name)
      invariant forall k :: 0 <= k < i ==> !Matches(kept[k], session, name)
      decreases |kept| - i
    {
      if Matches(kept[i], session, name) {
        SwapRemoved(kept, i);
        var w := kept[i];
        kept := kept[i := kept[|kept| - 1]][..|kept| - 1];
        fired := fired + [w];
      } else {
        i := i + 1;
      }
    }
  }

  /** `queue` are all requests in the order in which they were queued, of which `taken`
      have been taken; the last three fields are what the actor has done so far. */
  datatype State = State(queue: seq<Request>, taken: nat, nextId: nat, pending: map<nat, Handle>, waiters: seq<Waiter>,
                         open: bool, sent: seq<Sent>, replies: seq<Reply>, fired: seq<Waiter>)

  datatype Step = Queue(request: Request) | Take(delivered: bool) | Receive(message: Message) | Close

  /** One turn of the actor's loop; `delivered` is whether the connection took the call. */
  ghost predicate Turn(s: State, step: Step, s': State) {
    match step
    case Take(delivered) =>
      && s.open && s.taken < |s.queue|
      && (match s.queue[s.taken]
          case Call(target, name, reply) =>
            if delivered
            then s' == s.(taken := s.taken + 1, nextId := s.nextId + 1, pending := s.pending[s.nextId := reply],
                          sent := s.sent + [Sent(s.nextId, target, name, reply)])
            else s' == s.(taken := s.taken + 1, nextId := s.nextId + 1, open := false,
                          replies := s.replies + [Reply(reply, None, Err("chrome connection closed"))])
          case WaitEvent(session, name, reply) =>
            s' == s.(taken := s.taken + 1, waiters := s.waiters + [Waiter(session, name, reply)]))
    case Receive(message) =>
      && s.open
      && (match message
          case Answer(id, result) =>
            s' == (if id in s.pending
                   then s.(pending := s.pending - {id}, replies := s.replies + [Reply(s.pending[id], Some(id), result)])
                   else s)
          case Event(session, name) =>
            exists kept, fired :: Swept(s.waiters, session, name, kept, fired)
                                  && s' == s.(waiters := kept, fired := s.fired + fired)
          case Noise => s' == s)
    case Close => s.open && s' == s.(open := false)
    case Queue(_) => false
  }

  /** The actor with its own fields, and what it has done. */
  class Actor {
    var nextId: nat
    var pending: map<nat, Handle>
    var waiters: seq<Waiter>
    var open: bool
    var sent: seq<Sent>
    var replies: seq<Reply>
    var fired: seq<Waiter>

    constructor ()
      ensures Initial(Now([], 0))
    {
      nextId := 1;
      pending := map[];
      waiters, open, sent, replies, fired := [], true, [], [], [];
    }

    function Now(queue: seq<Request>, taken: nat): State
      reads this
    {
      State(queue, taken, nextId, pending, waiters, open, sent, replies, fired)
    }

    /** The branch of `cdp_actor` for a request; a call that is not delivered ends the
        loop. */
    method OnRequest(queue: seq<Request>, taken: nat, delivered: bool)
      requires open && taken < |queue|
      modifies this
      ensures Turn(old(Now(queue, taken)), Take(delivered), Now(queue, taken + 1))
    {
      match queue[taken] {
        case Call(target, name, reply) =>
          var id := nextId;
          nextId := nextId + 1;
          if !delivered {
            replies := replies + [Reply(reply, None, Err("chrome connection closed"))];
            open := false;
          } else {
            sent := sent + [Sent(id, target, name, reply)];
            pending := pending[id := reply];
          }
        case WaitEvent(session, name, reply) =>
          waiters := waiters + [Waiter(session, name, reply)];
      }
    }

    /** The branch for a message. */
    method OnMessage(message: Message, ghost queue: seq<Request>, ghost taken: nat)
      requires open
      modifies this
      ensures Turn(old(Now(queue, taken)), Receive(message), Now(queue, taken))
    {
      match message {
        case Answer(id, result) =>
          if id in pending {
            replies := replies + [Reply(pending[id], Some(id), result)];
            pending := pending - {id};
          }
        case Event(session, name) =>
          var kept, woken := Sweep(waiters, session, name);
          waiters, fired := kept, fired + woken;
        case Noise =>
      }
    }
  }

  ghost predicate Next(s: State, step: Step, s': State) {
    match step
    case Queue(request) =>
      (forall r :: r in s.queue ==> r.reply != request.reply) && s' == s.(queue := s.queue + [request])
    case _ => Turn(s, step, s')
  }

  ghost predicate Initial(s: State) {
    s == State([], 0, 1, map[], [], true, [], [], [])
  }

  ghost predicate Run(states: seq<State>, steps: seq<Step>) {
    && |states| == |steps| + 1 && Initial(states[0])
    && forall i :: 0 <= i < |steps| ==> Next(states[i], steps[i], states[i + 1])
  }

  ghost predicate Answered(s: State, h: Handle) { exists i :: 0 <= i < |s.replies| && s.replies[i].reply == h }

  ghost predicate WasSent(s: State, id: nat, h: Handle) {
    exists k :: 0 <= k < |s.sent| && s.sent[k].id == id && s.sent[k].reply == h
  }

  ghost predicate Queued(s: State) {
    && s.taken <= |s.queue|
    && (forall i, j :: 0 <= i < j < |s.queue| ==> s.queue[i].reply != s.queue[j].reply)
  }

  ghost predicate TakenCall(s: State, h: Handle) {
    exists k :: 0 <= k < s.taken && k < |s.queue| && s.queue[k].Call? && s.queue[k].reply == h
  }

  /** An id stands for one call, and a call is pending under its own id or answered,
      never both. */
  ghost predicate Calls(s: State) {
    && (forall x :: x in s.sent ==> x.id < s.nextId && TakenCall(s, x.reply))
    && (forall i, j :: 0 <= i < j < |s.sent| ==> s.sent[i].id != s.sent[j].id && s.sent[i].reply != s.sent[j].reply)
    && (forall id :: id in s.pending ==> WasSent(s, id, s.pending[id]) && !Answered(s, s.pending[id]))
    && (forall id, other :: id in s.pending && other in s.pending && id != other ==> s.pending[id] != s.pending[other])
    && (forall r :: r in s.replies ==> TakenCall(s, r.reply) && (r.id.Some? ==> WasSent(s, r.id.value, r.reply)))
    && (forall i, j :: 0 <= i < j < |s.replies| ==> s.replies[i].reply != s.replies[j].reply)
  }

  /** The waiters that were taken from the queue, each once: registered or fired. */
  function TakenWaiters(queue: seq<Request>, taken: nat): multiset<Waiter>
    requires taken <= |queue|
  {
    if taken == 0 then multiset{}
    else
      TakenWaiters(queue, taken - 1) +
      match queue[taken - 1]
      case Call(_, _, _) => multiset{}
      case WaitEvent(session, name, reply) => multiset{Waiter(session, name, reply)}
  }

  ghost predicate Waits(s: State)
    requires s.taken <= |s.queue|
  {
    multiset(s.waiters) + multiset(s.fired) == TakenWaiters(s.queue, s.taken)
  }

  ghost predicate Invariant(s: State) { Queued(s) && Calls(s) && Waits(s) }

  lemma TakeCallKeeps(s: State, delivered: bool, s': State)
    requires Invariant(s) && Turn(s, Take(delivered), s') && s.queue[s.taken].Call?
    ensures Invariant(s')
  {
    var h := s.queue[s.taken].reply;
    forall x: Handle | TakenCall(s, x) ensures TakenCall(s', x) && x != h {
      var k :| 0 <= k < s.taken && k < |s.queue| && s.queue[k].Call? && s.queue[k].reply == x;
      assert s'.queue[k].reply == x;
    }
    assert s'.queue[s.taken].reply == h;
    assert TakenCall(s', h);
    assert multiset(s'.waiters) + multiset(s'.fired) == TakenWaiters(s'.queue, s'.taken);
    if delivered { SentMore(s, s'.sent[|s.sent|], h, s'); } else { RepliedMore(s, h, s'); }
  }

  lemma SentMore(s: State, x: Sent, h: Handle, s': State)
    requires Calls(s) && (forall x :: TakenCall(s, x) ==> TakenCall(s', x) && x != h) && TakenCall(s', h)
    requires s'.nextId == s.nextId + 1 && s'.pending == s.pending[s.nextId := h] && s'.sent == s.sent + [x]
    requires x.id == s.nextId && x.reply == h && s'.replies == s.replies
    ensures Calls(s')
  {
    hide TakenCall, Answered;
    StillSent(s, s');
    PendingMore(s, x, h, s');
    forall y | y in s'.sent ensures y.id < s'.nextId && TakenCall(s', y.reply) {
      if y != x { assert y in s.sent; }
    }
    hide WasSent;
    forall r | r in s'.replies ensures r.id.Some? ==> WasSent(s', r.id.value, r.reply) {
      assert r in s.replies;
    }
  }

  lemma PendingMore(s: State, x: Sent, h: Handle, s': State)
    requires Calls(s) && (forall x :: TakenCall(s, x) ==> x != h)
    requires s'.pending == s.pending[s.nextId := h] && s'.sent == s.sent + [x]
    requires x.id == s.nextId && x.reply == h && s'.replies == s.replies
    ensures forall id :: id in s'.pending ==> WasSent(s', id, s'.pending[id]) && !Answered(s', s'.pending[id])
    ensures forall id, other :: id in s'.pending && other in s'.pending && id != other ==> s'.pending[id] != s'.pending[other]
  {
    hide TakenCall, Answered;
    StillSent(s, s');
    assert s'.sent[|s.sent|] == x;
    assert WasSent(s', s.nextId, h);
    NotYetAnswered(s, h);
    SameAnswers(s, s', h);
    forall id | id in s.pending ensures s.pending[id] != h && id < s.nextId {
      assert WasSent(s, id, s.pending[id]);
    }
    hide WasSent;
    forall id | id in s.pending ensures !Answered(s', s.pending[id]) {
      SameAnswers(s, s', s.pending[id]);
    }
  }

  lemma StillSent(s: State, s': State)
    requires s.sent <= s'.sent
    ensures forall id, h :: WasSent(s, id, h) ==> WasSent(s', id, h)
  {
    forall id, h | WasSent(s, id, h) ensures WasSent(s', id, h) {
      var k :| 0 <= k < |s.sent| && s.sent[k].id == id && s.sent[k].reply == h;
      assert s'.sent[k] == s.sent[k];
    }
  }

  lemma SameAnswers(s: State, s': State, h: Handle)
    requires s'.replies == s.replies
    ensures Answered(s', h) <==> Answered(s, h)
  {
  }

  lemma NotYetAnswered(s: State, h: Handle)
    requires (forall r :: r in s.replies ==> TakenCall(s, r.reply)) && !TakenCall(s, h)
    ensures !Answered(s, h)
  {
    hide TakenCall;
    forall i | 0 <= i < |s.replies| ensures s.replies[i].reply != h { assert s.replies[i] in s.replies; }
  }

  lemma RepliedMore(s: State, h: Handle, s': State)
    requires Calls(s) && (forall x :: TakenCall(s, x) ==> TakenCall(s', x) && x != h) && TakenCall(s', h)
    requires s'.nextId == s.nextId + 1 && s'.pending == s.pending && s'.sent == s.sent
    requires s'.replies == s.replies + [Reply(h, None, Err("chrome connection closed"))]
    ensures Calls(s')
  {
    hide TakenCall;
    forall id | id in s'.pending ensures WasSent(s', id, s'.pending[id]) && !Answered(s', s'.pending[id]) {
      assert WasSent(s, id, s.pending[id]) && !Answered(s, s.pending[id]);
    }
  }

  lemma TakeWaiterKeeps(s: State, s': State)
    requires Invariant(s) && Turn(s, Take(true), s') && s.queue[s.taken].WaitEvent?
    ensures Invariant(s')
  {
    hide Calls, TakenWaiters;
    SameCalls(s, s');
    var r := s.queue[s.taken];
    WaitsMore(s, Waiter(r.session, r.name, r.reply), s');
  }

  lemma WaitsMore(s: State, w: Waiter, s': State)
    requires s.taken < |s.queue| && Waits(s) && s.queue[s.taken] == WaitEvent(w.session, w.name, w.reply)
    requires s' == s.(taken := s.taken + 1, waiters := s.waiters + [w])
    ensures Waits(s')
  {
    assert multiset(s'.waiters) == multiset(s.waiters) + multiset{w};
  }

  /** The calls are as before when only waiters, or requests still to come, change. */
  lemma SameCalls(s: State, s': State)
    requires Calls(s)
    requires s'.nextId == s.nextId && s'.pending == s.pending && s'.sent == s.sent && s'.replies == s.replies
    requires s.taken <= s'.taken && s.queue <= s'.queue
    ensures Calls(s')
  {
    forall x: Handle | TakenCall(s, x) ensures TakenCall(s', x) {
      var k :| 0 <= k < s.taken && k < |s.queue| && s.queue[k].Call? && s.queue[k].reply == x;
      assert s'.queue[k].reply == x;
    }
    forall id | id in s'.pending ensures WasSent(s', id, s'.pending[id]) && !Answered(s', s'.pending[id]) {
      assert WasSent(s, id, s.pending[id]) && !Answered(s, s.pending[id]);
    }
  }

  lemma AnswerKeeps(s: State, id: nat, result: Result<string>, s': State)
    requires Invariant(s) && id in s.pending && Turn(s, Receive(Answer(id, result)), s')
    ensures Invariant(s')
  {
    var h := s.pending[id];
    forall x | TakenCall(s, x) ensures TakenCall(s', x) {
      var k :| 0 <= k < s.taken && k < |s.queue| && s.queue[k].Call? && s.queue[k].reply == x;
      assert s'.queue[k].reply == x;
    }
    assert WasSent(s, id, h) && !Answered(s, h);
    AnsweredMore(s, id, result, s');
  }

  lemma AnsweredMore(s: State, id: nat, result: Result<string>, s': State)
    requires Calls(s) && id in s.pending && (forall x :: TakenCall(s, x) ==> TakenCall(s', x))
    requires s'.nextId == s.nextId && s'.sent == s.sent && s'.pending == s.pending - {id}
    requires s'.replies == s.replies + [Reply(s.pending[id], Some(id), result)]
    ensures Calls(s')
  {
    hide TakenCall;
    var h := s.pending[id];
    assert WasSent(s, id, h) && !Answered(s, h);
    forall other | other in s'.pending
      ensures WasSent(s', other, s'.pending[other]) && !Answered(s', s'.pending[other])
    {
      assert WasSent(s, other, s.pending[other]) && !Answered(s, s.pending[other]) && s.pending[other] != h;
    }
    forall r | r in s'.replies ensures TakenCall(s', r.reply) && (r.id.Some? ==> WasSent(s', r.id.value, r.reply)) {
      assert r in s.replies || r == Reply(h, Some(id), result);
    }
  }

  lemma {:induction false} TakenWaitersPrefix(a: seq<Request>, b: seq<Request>, n: nat)
    requires n <= |a| && a <= b
    ensures TakenWaiters(a, n) == TakenWaiters(b, n)
  {
    if n > 0 { TakenWaitersPrefix(a, b, n - 1); }
  }

  lemma NextKeepsInvariant(s: State, step: Step, s': State)
    requires Invariant(s) && Next(s, step, s')
    ensures Invariant(s')
  {
    match step
    case Take(delivered) =>
      if s.queue[s.taken].Call? { TakeCallKeeps(s, delivered, s'); } else { TakeWaiterKeeps(s, s'); }
    case Receive(Answer(id, result)) =>
      if id in s.pending { AnswerKeeps(s, id, result, s'); }
    case Receive(Event(session, name)) =>
      SameCalls(s, s');
      EventKeepsWaiters(s, session, name, s');
    case Queue(request) =>
      SameCalls(s, s');
      TakenWaitersPrefix(s.queue, s'.queue, s.taken);
    case _ => SameCalls(s, s');
  }

  lemma EventKeepsWaiters(s: State, session: string, name: string, s': State)
    requires s.taken <= |s.queue| && Waits(s) && Turn(s, Receive(Event(session, name)), s')
    ensures Waits(s')
  {
    var kept, fired :| Swept(s.waiters, session, name, kept, fired) && s' == s.(waiters := kept, fired := s.fired + fired);
    assert multiset(s.fired + fired) == multiset(s.fired) + multiset(fired);
  }

  lemma {:induction false} RunKeepsInvariant(states: seq<State>, steps: seq<Step>, i: nat)
    requires Run(states, steps) && i < |states|
    ensures Invariant(states[i])
  {
    hide Next, Calls;
    if i > 0 {
      RunKeepsInvariant(states, steps, i - 1);
      NextKeepsInvariant(states[i - 1], steps[i - 1], states[i]);
    } else {
      NothingYet(states[0]);
    }
  }

  lemma NothingYet(s: State)
    requires Initial(s)
    ensures Invariant(s)
  {
  }

  /** Over every run each call has at most one reply; a reply from Chrome is for the
      one call that was sent with its id. */
  lemma AtMostOneReply(states: seq<State>, steps: seq<Step>, i: nat, a: nat, b: nat)
    requires Run(states, steps) && i < |states| && a < |states[i].replies| && b < |states[i].replies|
    ensures var s := states[i];
      && (a != b ==> s.replies[a].reply != s.replies[b].reply)
      && (s.replies[a].id.Some? ==> forall x :: x in s.sent ==> (x.id == s.replies[a].id.value <==> x.reply == s.replies[a].reply))
      && (s.replies[a].id.Some? ==> exists x :: x in s.sent && x.id == s.replies[a].id.value && x.reply == s.replies[a].reply)
  {
    hide TakenCall, Answered;
    RunKeepsInvariant(states, steps, i);
    var s := states[i];
    assert s.replies[a] in s.replies;
    if s.replies[a].id.Some? {
      assert WasSent(s, s.replies[a].id.value, s.replies[a].reply);
      var k :| 0 <= k < |s.sent| && s.sent[k].id == s.replies[a].id.value && s.sent[k].reply == s.replies[a].reply;
      forall x | x in s.sent ensures x.id == s.replies[a].id.value <==> x.reply == s.replies[a].reply {
        var j :| 0 <= j < |s.sent| && s.sent[j] == x;
      }
    }
  }

  // ---- who gets what ---------------------------------------------------------

  /** At step `m` the call was taken from the queue and sent as `x`. */
  ghost predicate SentAt(states: seq<State>, steps: seq<Step>, m: nat, x: Sent) {
    && m < |steps| && m < |states| && steps[m] == Take(true)
    && states[m].taken < |states[m].queue| && states[m].queue[states[m].taken] == Call(x.target, x.name, x.reply)
    && states[m].nextId == x.id
  }

  predicate AnswersId(step: Step, id: nat) { step.Receive? && step.message.Answer? && step.message.id == id }

  /** What is sent are the calls as they were taken, in that order. */
  lemma {:induction false} SentAsTaken(states: seq<State>, steps: seq<Step>, i: nat, k: nat)
    requires Run(states, steps) && i < |states| && k < |states[i].sent|
    ensures exists m: nat :: m < i && SentAt(states, steps, m, states[i].sent[k]) && states[m].sent == states[i].sent[..k]
  {
    hide Swept;
    if i > 0 {
      var s, step, s' := states[i - 1], steps[i - 1], states[i];
      assert Next(s, step, s');
      assert s'.sent == s.sent || (step == Take(true) && s.queue[s.taken].Call? && |s'.sent| == |s.sent| + 1 && s.sent <= s'.sent);
      if k < |s.sent| {
        SentAsTaken(states, steps, i - 1, k);
        assert s'.sent[..k] == s.sent[..k];
      } else {
        assert SentAt(states, steps, i - 1, s'.sent[k]) && s.sent == s'.sent[..k];
      }
    }
  }

  /** A pending call has been sent, and no answer with its id has come since. */
  ghost predicate PendingSince(states: seq<State>, steps: seq<Step>, i: nat, id: nat, h: Handle, m: nat) {
    && m < i && m < |steps| == |states| - 1 && i < |states|
    && (exists target, name :: SentAt(states, steps, m, Sent(id, target, name, h)))
    && forall n :: m < n < i ==> !AnswersId(steps[n], id)
  }

  lemma {:induction false} PendingIsUnanswered(states: seq<State>, steps: seq<Step>, i: nat, id: nat)
    requires Run(states, steps) && i < |states| && id in states[i].pending
    ensures exists m: nat :: PendingSince(states, steps, i, id, states[i].pending[id], m)
  {
    hide Swept;
    if i > 0 {
      var s, step, s' := states[i - 1], steps[i - 1], states[i];
      assert Next(s, step, s');
      var h := s'.pending[id];
      if step == Take(true) && s.queue[s.taken].Call? && id == s.nextId {
        assert SentAt(states, steps, i - 1, Sent(id, s.queue[s.taken].target, s.queue[s.taken].name, h));
        assert PendingSince(states, steps, i, id, h, i - 1);
      } else {
        PendingIsUnanswered(states, steps, i - 1, id);
        var m: nat :| PendingSince(states, steps, i - 1, id, h, m);
        assert PendingSince(states, steps, i, id, h, m);
      }
    }
  }

  /** The reply is of the first answer with the call's id after the call was sent, with
      that answer's result. */
  ghost predicate RepliesTo(states: seq<State>, steps: seq<Step>, i: nat, r: Reply, j: nat) {
    && r.id.Some? && j < i && j < |steps| && steps[j] == Receive(Answer(r.id.value, r.result))
    && exists m: nat :: PendingSince(states, steps, j, r.id.value, r.reply, m)
  }

  /** The reply is for a call that could not be sent. */
  ghost predicate RepliesToNone(states: seq<State>, steps: seq<Step>, i: nat, r: Reply, j: nat) {
    && r.id.None? && j < i && j < |steps| && j < |states| && steps[j] == Take(false) && r.result == Err("chrome connection closed")
    && states[j].taken < |states[j].queue| && states[j].queue[states[j].taken].Call?
    && states[j].queue[states[j].taken].reply == r.reply
  }

  /** Over every run, what a caller gets is the result of Chrome's first answer to its
      call, or that the connection was closed when the call was to be sent. */
  lemma {:induction false} RepliesAreAnswers(states: seq<State>, steps: seq<Step>, i: nat, r: Reply)
    requires Run(states, steps) && i < |states| && r in states[i].replies
    ensures exists j: nat :: RepliesTo(states, steps, i, r, j) || RepliesToNone(states, steps, i, r, j)
  {
    hide Swept, PendingSince;
    if i > 0 {
      var s, step, s' := states[i - 1], steps[i - 1], states[i];
      assert Next(s, step, s');
      if r in s.replies {
        RepliesAreAnswers(states, steps, i - 1, r);
        var j: nat :| RepliesTo(states, steps, i - 1, r, j) || RepliesToNone(states, steps, i - 1, r, j);
        assert RepliesTo(states, steps, i, r, j) || RepliesToNone(states, steps, i, r, j);
      } else if step.Receive? {
        PendingIsUnanswered(states, steps, i - 1, step.message.id);
        assert RepliesTo(states, steps, i, r, i - 1);
      } else {
        assert RepliesToNone(states, steps, i, r, i - 1);
      }
    }
  }

  lemma {:induction false} SentIsPendingOrAnswered(states: seq<State>, steps: seq<Step>, i: nat, x: Sent)
    requires Run(states, steps) && i < |states| && x in states[i].sent
    ensures Answered(states[i], x.reply) || (x.id in states[i].pending && states[i].pending[x.id] == x.reply)
  {
    hide Swept, Calls, Turn, Answered;
    if i > 0 {
      var s, step, s' := states[i - 1], steps[i - 1], states[i];
      assert Next(s, step, s');
      if x in s.sent {
        SentIsPendingOrAnswered(states, steps, i - 1, x);
        RunKeepsInvariant(states, steps, i - 1);
        SentBefore(s, x);
        PendingOrAnswered(s, step, s', x);
      } else {
        JustSent(s, step, s', x);
      }
    }
  }

  lemma PendingOrAnswered(s: State, step: Step, s': State, x: Sent)
    requires Next(s, step, s') && x.id < s.nextId
    requires Answered(s, x.reply) || (x.id in s.pending && s.pending[x.id] == x.reply)
    ensures Answered(s', x.reply) || (x.id in s'.pending && s'.pending[x.id] == x.reply)
  {
    hide Swept;
    if Answered(s, x.reply) { StillAnswered(s, s', x.reply); }
    else if AnswersId(step, x.id) { assert s'.replies[|s.replies|].reply == x.reply; }
  }

  lemma JustSent(s: State, step: Step, s': State, x: Sent)
    requires Next(s, step, s') && x in s'.sent && x !in s.sent
    ensures x.id in s'.pending && s'.pending[x.id] == x.reply
  {
    hide Swept;
  }

  lemma SentBefore(s: State, x: Sent)
    requires Calls(s) && x in s.sent
    ensures x.id < s.nextId
  {
  }

  lemma StillAnswered(s: State, s': State, h: Handle)
    requires Answered(s, h) && s.replies <= s'.replies
    ensures Answered(s', h)
  {
    var i :| 0 <= i < |s.replies| && s.replies[i].reply == h;
    assert s'.replies[i].reply == h;
  }

  /** Over every run, each call that the actor has taken was sent as it was, and then is
      pending under its id or answered, or else it was answered that the connection is
      closed, and the actor has stopped. */
  lemma {:induction false} TakenIsSentOrRefused(states: seq<State>, steps: seq<Step>, i: nat, k: nat)
    requires Run(states, steps) && i < |states|
    requires k < states[i].taken && k < |states[i].queue| && states[i].queue[k].Call?
    ensures var s, call := states[i], states[i].queue[k];
      || (exists x :: x in s.sent && x.target == call.target && x.name == call.name && x.reply == call.reply
                      && (Answered(s, x.reply) || (x.id in s.pending && s.pending[x.id] == x.reply)))
      || (Reply(call.reply, None, Err("chrome connection closed")) in s.replies && !s.open)
  {
    hide Swept, Answered;
    if i > 0 {
      var s, step, s' := states[i - 1], steps[i - 1], states[i];
      assert Next(s, step, s');
      var call := s'.queue[k];
      assert s.queue <= s'.queue && s.taken <= |s.queue| by { RunKeepsInvariant(states, steps, i - 1); }
      if k < s.taken {
        TakenIsSentOrRefused(states, steps, i - 1, k);
        assert s.replies <= s'.replies;
      } else if step == Take(true) {
        assert s'.sent[|s.sent|] in s'.sent;
      }
      forall x | x in s'.sent ensures Answered(s', x.reply) || (x.id in s'.pending && s'.pending[x.id] == x.reply) {
        SentIsPendingOrAnswered(states, steps, i, x);
      }
    }
  }

  /** And an answer to a call that was sent and not answered is passed on as it is; any
      other answer is ignored. */
  lemma AnswerIsPassedOn(states: seq<State>, steps: seq<Step>, i: nat, id: nat, result: Result<string>)
    requires Run(states, steps) && i < |steps| && steps[i] == Receive(Answer(id, result))
    ensures var s, s' := states[i], states[i + 1];
      && (forall x :: x in s.sent && x.id == id && !Answered(s, x.reply) ==> s'.replies == s.replies + [Reply(x.reply, Some(id), result)])
      && ((forall x :: x in s.sent && x.id == id ==> Answered(s, x.reply)) ==> s'.replies == s.replies)
  {
    hide Answered, TakenCall;
    var s := states[i];
    RunKeepsInvariant(states, steps, i);
    assert Next(s, steps[i], states[i + 1]);
    forall x | x in s.sent && x.id == id && !Answered(s, x.reply) ensures id in s.pending && s.pending[id] == x.reply {
      SentIsPendingOrAnswered(states, steps, i, x);
    }
    if id in s.pending {
      assert WasSent(s, id, s.pending[id]) && !Answered(s, s.pending[id]);
      var k :| 0 <= k < |s.sent| && s.sent[k].id == id && s.sent[k].reply == s.pending[id];
      assert s.sent[k] in s.sent;
    }
  }

  /** A waiter fires only at an event of its session and name, and once registered. */
  lemma {:induction false} FiredByEvent(states: seq<State>, steps: seq<Step>, i: nat, w: Waiter)
    requires Run(states, steps) && i < |states| && w in states[i].fired
    ensures exists j: nat :: j < i && steps[j] == Receive(Event(w.session, w.name)) && w in states[j].waiters
  {
    if i > 0 {
      var s, step, s' := states[i - 1], steps[i - 1], states[i];
      assert Next(s, step, s');
      if w in s.fired {
        FiredByEvent(states, steps, i - 1, w);
      } else {
        var session, name := step.message.session, step.message.name;
        var kept, fired :| Swept(s.waiters, session, name, kept, fired) && s' == s.(waiters := kept, fired := s.fired + fired);
        assert w in fired;
        assert w in multiset(kept) + multiset(fired);
        assert w in multiset(s.waiters);
      }
    }
  }

  /** And at such an event every one of them does, and no other leaves. */
  lemma EventFiresAll(states: seq<State>, steps: seq<Step>, i: nat, session: string, name: string, w: Waiter)
    requires Run(states, steps) && i < |steps| && steps[i] == Receive(Event(session, name))
    ensures w in states[i + 1].waiters ==> w in states[i].waiters && (w.session != session || w.name != name)
    ensures w in states[i].waiters ==>
      w in if w.session == session && w.name == name then states[i + 1].fired else states[i + 1].waiters
  {
    var s, s' := states[i], states[i + 1];
    assert Next(s, steps[i], s');
    var kept, fired :| Swept(s.waiters, session, name, kept, fired) && s' == s.(waiters := kept, fired := s.fired + fired);
    assert w in multiset(s.waiters) <==> w in multiset(kept) || w in multiset(fired);
  }

  /** A waiter that was queued before a call is registered, or has fired, when the call
      is sent: the load waiter is there before the navigation. */
  lemma WaiterBeforeCall(states: seq<State>, steps: seq<Step>, i: nat, w: nat, c: nat)
    requires Run(states, steps) && i < |states|
    requires var s := states[i];
      && w < c < |s.queue| && s.queue[w].WaitEvent? && s.queue[c].Call?
      && exists x :: x in s.sent && x.reply == s.queue[c].reply
    ensures var s := states[i];
      var waiter := Waiter(s.queue[w].session, s.queue[w].name, s.queue[w].reply);
      waiter in s.waiters || waiter in s.fired
  {
    RunKeepsInvariant(states, steps, i);
    var s := states[i];
    assert TakenCall(s, s.queue[c].reply);
    var k :| 0 <= k < s.taken && k < |s.queue| && s.queue[k].Call? && s.queue[k].reply == s.queue[c].reply;
    assert k == c;
    var waiter := Waiter(s.queue[w].session, s.queue[w].name, s.queue[w].reply);
    TakenHas(s.queue, s.taken, w);
    assert waiter in multiset(s.waiters) + multiset(s.fired);
  }

  lemma {:induction false} TakenHas(queue: seq<Request>, taken: nat, w: nat)
    requires w < taken <= |queue| && queue[w].WaitEvent?
    ensures Waiter(queue[w].session, queue[w].name, queue[w].reply) in TakenWaiters(queue, taken)
  {
    if w < taken - 1 { TakenHas(queue, taken - 1, w); }
  }
}
