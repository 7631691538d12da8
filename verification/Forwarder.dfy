/** What the clients do with a claimed batch. */
module Forwarder {
  import opened Wrappers
  import opened InboxRows
  import opened InboxTable
  import opened Delivery

  /** A client, by the requests that it has sent. */
  class Client {
    var sent: seq<Call>

    method Ack(ids: seq<Id>, answered: bool) returns (r: Result<()>)
      modifies this
      ensures sent == old(sent) + [AckCall(ids)] && r.Ok? == answered
    {
      sent := sent + [AckCall(ids)];
      r := if answered then Ok(()) else Err("request failed");
    }

    method Release(ids: seq<Id>)
      modifies this
      ensures sent == old(sent) + [ReleaseCall(ids)]
    {
      sent := sent + [ReleaseCall(ids)];
    }
  }

  /** How many deliveries go through before the first failure. */
  function Delivered(outcome: seq<bool>): (n: nat)
    ensures n <= |outcome| && (n < |outcome| ==> !outcome[n]) && forall i :: 0 <= i < n ==> outcome[i]
  {
    if outcome == [] || !outcome[0] then 0 else 1 + Delivered(outcome[1..])
  }

  lemma {:induction false} DeliveredIs(outcome: seq<bool>, n: nat)
    requires n <= |outcome| && (n < |outcome| ==> !outcome[n]) && forall i :: 0 <= i < n ==> outcome[i]
    ensures Delivered(outcome) == n
  {
    if n > 0 { DeliveredIs(outcome[1..], n - 1); }
  }

  /** The calls of a batch of which the first `n` were delivered. */
  function Sent(batch: seq<Id>, n: nat): seq<Call>
    requires n <= |batch|
  {
    (if n == 0 then [] else [AckCall(batch[..n])]) + (if n == |batch| then [] else [ReleaseCall(batch[n..])])
  }

  /** `process_batch`: `outcome` says which deliveries go through, `answered` whether
      the last acknowledgement is answered. */
  method ProcessBatch(client: Client, requests: seq<Id>, outcome: seq<bool>, answered: bool) returns (r: Result<()>)
    requires |outcome| == |requests|
    modifies client
    ensures client.sent == old(client.sent) + Sent(requests, Delivered(outcome))
    ensures r.Ok? <==> Delivered(outcome) == |requests| && (requests == [] || answered)
  {
    var acked: seq<Id> := [];
    for i := 0 to |requests|
      invariant acked == requests[..i] && client.sent == old(client.sent)
      invariant forall j :: 0 <= j < i ==> outcome[j]
    {
      if outcome[i] {
        acked := acked + [requests[i]];
      } else {
        DeliveredIs(outcome, i);
        var releaseIds := requests[i..];
        if acked != [] { var _ := client.Ack(acked, false); }
        if releaseIds != [] { client.Release(releaseIds); }
        return Err("forward failed");
      }
    }
    DeliveredIs(outcome, |requests|);
    assert requests[..|requests|] == requests;
    if acked != [] {
      r := client.Ack(acked, answered);
    } else {
      r := Ok(());
    }
  }

  /** The batch in `forwardLoop` of main.go, which copies the ids to release. */
  method ForwardBatchGo(client: Client, requests: seq<Id>, outcome: seq<bool>, answered: bool) returns (r: Result<()>)
    requires |outcome| == |requests|
    modifies client
    ensures client.sent == old(client.sent) + Sent(requests, Delivered(outcome))
    ensures r.Ok? <==> Delivered(outcome) == |requests| && (requests == [] || answered)
  {
    var acked: seq<Id> := [];
    for i := 0 to |requests|
      invariant acked == requests[..i] && client.sent == old(client.sent)
      invariant forall j :: 0 <= j < i ==> outcome[j]
    {
      if !outcome[i] {
        DeliveredIs(outcome, i);
        var releaseIds: seq<Id> := [];
        for k := i to |requests|
          invariant releaseIds == requests[i..k] && client.sent == old(client.sent)
        {
          releaseIds := releaseIds + [requests[k]];
        }
        assert requests[i..|requests|] == requests[i..];
        if |acked| > 0 { var _ := client.Ack(acked, false); }
        if |releaseIds| > 0 { client.Release(releaseIds); }
        return Err("forward failed");
      }
      acked := acked + [requests[i]];
    }
    DeliveredIs(outcome, |requests|);
    assert requests[..|requests|] == requests;
    r := Ok(());
    if |acked| > 0 {
      r := client.Ack(acked, answered);
    }
  }

  /** The batch in `forwardLoop` of forward.js: after a failure both requests are
      under way at once, and either may be sent first. */
  method ForwardBatchJs(client: Client, requests: seq<Id>, outcome: seq<bool>, answered: bool) returns (r: Result<()>)
    requires |outcome| == |requests|
    modifies client
    ensures old(client.sent) <= client.sent
    ensures multiset(client.sent[|old(client.sent)|..]) == multiset(Sent(requests, Delivered(outcome)))
    ensures r.Ok? <==> Delivered(outcome) == |requests| && (requests == [] || answered)
  {
    var acked: seq<Id> := [];
    for i := 0 to |requests|
      invariant acked == requests[..i] && client.sent == old(client.sent)
      invariant forall j :: 0 <= j < i ==> outcome[j]
    {
      if !outcome[i] {
        DeliveredIs(outcome, i);
        var releaseIds := requests[i..];
        var ackFirst: bool := *;
        if ackFirst && |acked| > 0 { var _ := client.Ack(acked, false); }
        client.Release(releaseIds);
        if !ackFirst && |acked| > 0 { var _ := client.Ack(acked, false); }
        EitherOrder(old(client.sent), client.sent, acked, releaseIds);
        return Err("forward failed");
      }
      acked := acked + [requests[i]];
    }
    DeliveredIs(outcome, |requests|);
    assert requests[..|requests|] == requests;
    r := Ok(());
    if |acked| > 0 {
      r := client.Ack(acked, answered);
    }
  }

  lemma EitherOrder(before: seq<Call>, after: seq<Call>, acked: seq<Id>, rest: seq<Id>)
    requires after == before + (if acked == [] then [] else [AckCall(acked)]) + [ReleaseCall(rest)]
          || after == before + [ReleaseCall(rest)] + (if acked == [] then [] else [AckCall(acked)])
    ensures before <= after
    ensures multiset(after[|before|..]) == multiset((if acked == [] then [] else [AckCall(acked)]) + [ReleaseCall(rest)])
  {
    var a, c := if acked == [] then [] else [AckCall(acked)], [ReleaseCall(rest)];
    assert after[|before|..] == a + c || after[|before|..] == c + a;
  }

  /** These are the calls that the runs of an inbox carry: every id of the batch is in
      one of the two, acknowledged exactly if it was delivered. */
  lemma SentSplitsBatch(batch: seq<Id>, n: nat)
    requires n <= |batch|
    requires forall i, j :: 0 <= i < j < |batch| ==> batch[i] != batch[j]
    ensures forall call :: call in Sent(batch, n) <==> call in CallsAfter(batch, n)
    ensures |Sent(batch, n)| == (if n > 0 then 1 else 0) + (if n < |batch| then 1 else 0)
    ensures n > 0 ==> Sent(batch, n)[0].AckCall?
    ensures forall i :: 0 <= i < |batch| ==> (i < n <==> exists ids :: AckCall(ids) in Sent(batch, n) && batch[i] in ids)
    ensures forall i :: 0 <= i < |batch| ==> (i >= n <==> exists ids :: ReleaseCall(ids) in Sent(batch, n) && batch[i] in ids)
  {
    forall i | 0 <= i < |batch|
      ensures i < n <==> exists ids :: AckCall(ids) in Sent(batch, n) && batch[i] in ids
      ensures i >= n <==> exists ids :: ReleaseCall(ids) in Sent(batch, n) && batch[i] in ids
    {
      if i < n {
        assert batch[i] in batch[..n] && batch[i] !in batch[n..];
        assert AckCall(batch[..n]) in Sent(batch, n);
      } else {
        assert batch[i] in batch[n..] && batch[i] !in batch[..n];
        assert ReleaseCall(batch[n..]) in Sent(batch, n);
      }
    }
  }

  /** The order in which the server carries out the two does not matter. */
  lemma CallsCommute(table: Table, acked: seq<Id>, released: seq<Id>)
    ensures Remove(Unlease(table, released), acked) == Unlease(Remove(table, acked), released)
  {
    var a, b := Remove(Unlease(table, released), acked), Unlease(Remove(table, acked), released);
    assert a.Keys == b.Keys;
  }
}
