/** The operations of the semaphore, each run by itself. */
module Library {
  import opened Wrappers
  import opened Leases

  datatype Outcome =
    | Acquired(lease: Uuid, position: nat, expires: Time)
    | Full(nextExpiry: Option<Time>)
    | Missing

  datatype Response = Response(count: nat, inUse: nat, available: int)

  class Library {
    var resources: map<Uuid, nat>
    var leases: LeaseTable
    /** The largest count that each resource has been given. */
    ghost var largest: map<Uuid, nat>
    const maxCount: int

    constructor (maxCount: int)
      ensures resources == map[] && leases == map[] && this.maxCount == maxCount
      ensures Valid()
    {
      this.maxCount := maxCount;
      resources := map[];
      leases := map[];
      largest := map[];
    }

    ghost predicate Valid()
      reads this
    {
      && DistinctPositions(leases)
      && resources.Keys == largest.Keys
      && (forall id :: id in resources ==> resources[id] <= largest[id])
      && (forall l :: l in leases ==> leases[l].resource in resources && leases[l].position < largest[leases[l].resource])
    }

    /** `put_resource`, up to its notification. */
    method Put(id: Uuid, count: int) returns (r: Result<()>)
      requires Valid()
      modifies this
      ensures Valid() && leases == old(leases)
      ensures r.Ok? <==> 0 <= count <= maxCount
      ensures resources == if r.Ok? then old(resources)[id := count] else old(resources)
      ensures r.Err? ==> largest == old(largest)
      ensures r.Ok? ==> largest == old(largest)[id := if id in old(largest) && old(largest)[id] > count then old(largest)[id] else count]
    {
      if count < 0 || count > maxCount { return Err("count out of range"); }
      var n: nat := count;
      resources := resources[id := n];
      largest := largest[id := if id in largest && largest[id] > n then largest[id] else n];
      return Ok(());
    }

    /** `resource_response`: the positions in use and those available are the count. */
    method ResourceResponse(id: Uuid, now: Time) returns (r: Option<Response>)
      requires Valid()
      ensures r.Some? <==> id in resources
      ensures r.Some? ==> r.value.count == resources[id] == r.value.inUse + r.value.available
      ensures r.Some? ==>
        r.value.inUse == |set l | l in leases && leases[l].resource == id && leases[l].expires > now && leases[l].position < resources[id]|
      ensures r.Some? ==> 0 <= r.value.available <= r.value.count
      ensures r.Some? ==> (r.value.available > 0 <==> exists p :: 0 <= p < r.value.count && FreeAt(leases, id, p, now))
    {
      if id !in resources { return None; }
      Pigeonhole(leases, id, resources[id], now);
      var inUse := InUse(leases, id, resources[id], now);
      FreeAtIs(leases, id, now);
      assert Counted(leases, id, resources[id], now)
          == set l | l in leases && leases[l].resource == id && leases[l].expires > now && leases[l].position < resources[id];
      return Some(Response(resources[id], inUse, resources[id] - inUse));
    }

    /** `delete_resource`; the leases go with it. */
    method Delete(id: Uuid) returns (deleted: bool)
      requires Valid()
      modifies this
      ensures Valid()
      ensures deleted <==> id in old(resources)
      ensures resources == old(resources) - {id} && largest == old(largest) - {id}
      ensures forall l :: l in leases <==> l in old(leases) && old(leases)[l].resource != id
      ensures forall l :: l in leases ==> leases[l] == old(leases)[l]
    {
      deleted := id in resources;
      resources, largest := resources - {id}, largest - {id};
      leases := map l | l in leases && leases[l].resource != id :: leases[l];
    }

    /** `try_borrow`: `lease` is the id that it draws.  A position is found exactly if
        one is available, and it is the least without a live lease. */
    method TryBorrow(id: Uuid, ttl: Time, now: Time, lease: Uuid) returns (outcome: Outcome)
      requires Valid() && lease !in leases
      modifies this`leases
      ensures Valid()
      ensures outcome.Missing? <==> id !in resources
      ensures outcome.Acquired? <==> id in resources && exists p :: 0 <= p < resources[id] && FreeAt(old(leases), id, p, now)
      ensures outcome.Acquired? ==>
        && outcome.lease == lease && outcome.expires == now + ttl
        && outcome.position < resources[id] && FreeAt(old(leases), id, outcome.position, now)
        && (forall p :: 0 <= p < outcome.position ==> !FreeAt(old(leases), id, p, now))
        && lease in leases && leases[lease] == Lease(id, outcome.position, now + ttl)
      ensures outcome.Acquired? ==> forall l :: l != lease ==>
        (l in leases <==> l in old(leases) && !(old(leases)[l].resource == id && old(leases)[l].expires <= now))
      ensures outcome.Acquired? ==> forall l :: l != lease && l in leases ==> leases[l] == old(leases)[l]
      ensures !outcome.Acquired? ==> leases == old(leases)
      ensures outcome.Full? && outcome.nextExpiry.None? ==> resources[id] == 0
      ensures outcome.Full? ==> forall l :: l in leases && leases[l].resource == id && leases[l].expires > now ==>
        outcome.nextExpiry.Some? && outcome.nextExpiry.value <= leases[l].expires
      ensures outcome.Full? && outcome.nextExpiry.Some? ==>
        exists l :: l in leases && leases[l].resource == id && leases[l].expires == outcome.nextExpiry.value > now
    {
      hide Swept, Positions, LeastFree, FreeAt, OfResource, IsNextExpiry;
      if id !in resources { return Missing; }
      var count := resources[id];
      var rest := Swept(leases, id, now);
      SweptIs(leases, id, now);
      PickIs(leases, id, count, now);
      match LeastFree(Positions(rest, id), 0, count) {
        case Some(position) =>
          leases := rest[lease := Lease(id, position, now + ttl)];
          return Acquired(lease, position, now + ttl);
        case None =>
          var next := NextExpiry(rest, id);
          NextIs(leases, id, count, now, next);
          return Full(next);
      }
    }

    /** `return_lease`, up to its notification, which is sent if `returned`. */
    method ReturnLease(id: Uuid, lease: Uuid, now: Time) returns (returned: bool)
      requires Valid()
      modifies this`leases
      ensures Valid()
      ensures returned <==> lease in old(leases) && old(leases)[lease].resource == id && old(leases)[lease].expires > now
      ensures leases == if returned then old(leases) - {lease} else old(leases)
    {
      returned := lease in leases && leases[lease].resource == id && leases[lease].expires > now;
      if returned { leases := leases - {lease}; }
    }

    /** However the count has gone up and down, a resource never has more live leases
        than the largest count it was given. */
    lemma LiveAtMostLargest(id: Uuid, now: Time)
      requires Valid() && id in resources
      ensures |Live(leases, id, now).Keys| <= largest[id]
    {
      Pigeonhole(leases, id, largest[id], now);
      assert Live(leases, id, now).Keys == Counted(leases, id, largest[id], now);
    }
  }

  /** No live lease of the resource is on the position. */
  ghost predicate FreeAt(leases: LeaseTable, id: Uuid, p: int, now: Time) {
    forall l :: l in leases && leases[l].resource == id && leases[l].expires > now ==> leases[l].position != p
  }

  lemma FreeAtIs(leases: LeaseTable, id: Uuid, now: Time)
    ensures forall p: nat :: FreeAt(leases, id, p, now) <==> p !in Positions(Live(leases, id, now), id)
  {
    forall p: nat ensures FreeAt(leases, id, p, now) <==> p !in Positions(Live(leases, id, now), id) {
      if !FreeAt(leases, id, p, now) {
        var l :| l in leases && leases[l].resource == id && leases[l].expires > now && leases[l].position == p;
        assert l in Live(leases, id, now);
      }
    }
  }

  /** What the statement that picks a position finds after the sweep. */
  lemma PickIs(leases: LeaseTable, id: Uuid, count: nat, now: Time)
    ensures match LeastFree(Positions(Swept(leases, id, now), id), 0, count)
            case Some(p) =>
              && p < count && FreeAt(leases, id, p, now) && (forall q: nat :: q < p ==> !FreeAt(leases, id, q, now))
              && forall l :: l in Swept(leases, id, now) && leases[l].resource == id ==> leases[l].position != p
            case None => forall p: nat :: p < count ==> !FreeAt(leases, id, p, now)
  {
    hide Live, FreeAt;
    SweptIsLive(leases, id, now);
    FreeAtIs(leases, id, now);
    LeastFreeIs(Positions(Swept(leases, id, now), id), 0, count);
    hide LeastFree;
  }

  /** The next expiry of what the sweep left is that of the live leases, and there is one
      when no position is free. */
  lemma NextIs(leases: LeaseTable, id: Uuid, count: nat, now: Time, next: Option<Time>)
    requires IsNextExpiry(next, OfResource(Swept(leases, id, now), id))
    requires forall p: nat :: p < count ==> !FreeAt(leases, id, p, now)
    ensures next.None? ==> count == 0
    ensures forall l :: l in leases && leases[l].resource == id && leases[l].expires > now ==>
      next.Some? && next.value <= leases[l].expires
    ensures next.Some? ==> exists l :: l in leases && leases[l].resource == id && leases[l].expires == next.value > now
  {
    SameLive(leases, id, now);
    var live := Live(leases, id, now);
    hide Swept, OfResource;
    forall l | l in leases && leases[l].resource == id && leases[l].expires > now
      ensures next.Some? && next.value <= leases[l].expires
    {
      assert l in live;
    }
    if count > 0 { assert !FreeAt(leases, id, 0, now); }
  }

  /** The sweep touches only expired leases, and only those of the resource. */
  lemma SweptIs(leases: LeaseTable, id: Uuid, now: Time)
    ensures forall l :: l in Swept(leases, id, now) <==> l in leases && !(leases[l].resource == id && leases[l].expires <= now)
    ensures forall l :: l in Swept(leases, id, now) ==> Swept(leases, id, now)[l] == leases[l]
  {
  }

  /** The positions of the leases left by the sweep are those of the live leases. */
  lemma SweptIsLive(leases: LeaseTable, id: Uuid, now: Time)
    ensures Positions(Swept(leases, id, now), id) == Positions(Live(leases, id, now), id)
  {
    forall p ensures p in Positions(Swept(leases, id, now), id) <==> p in Positions(Live(leases, id, now), id) {
      if p in Positions(Swept(leases, id, now), id) {
        var l :| l in Swept(leases, id, now) && leases[l].resource == id && leases[l].position == p;
        assert l in Live(leases, id, now);
      }
      if p in Positions(Live(leases, id, now), id) {
        var l :| l in Live(leases, id, now) && leases[l].position == p;
        assert l in Swept(leases, id, now);
      }
    }
  }

  /** The least expiry of the leases; `None` if there is none. */
  ghost predicate IsNextExpiry(next: Option<Time>, live: LeaseTable) {
    match next
    case None => live == map[]
    case Some(t) => (exists l :: l in live && live[l].expires == t) && forall l :: l in live ==> t <= live[l].expires
  }

  lemma SameLive(leases: LeaseTable, id: Uuid, now: Time)
    ensures Live(leases, id, now) == OfResource(Swept(leases, id, now), id)
  {
  }

  function OfResource(leases: LeaseTable, id: Uuid): LeaseTable {
    map l | l in leases && leases[l].resource == id :: leases[l]
  }

  /** `min(expires_at)` of a resource's leases. */
  method NextExpiry(leases: LeaseTable, id: Uuid) returns (next: Option<Time>)
    ensures IsNextExpiry(next, OfResource(leases, id))
  {
    next := None;
    var all := OfResource(leases, id);
    var ids := all.Keys;
    while ids != {}
      invariant ids <= all.Keys
      invariant next.None? ==> ids == all.Keys
      invariant next.Some? ==> exists l :: l in all && all[l].expires == next.value
      invariant next.Some? ==> forall l :: l in all && l !in ids ==> next.value <= all[l].expires
      decreases ids
    {
      var l :| l in ids;
      ids := ids - {l};
      if next.None? || all[l].expires < next.value { next := Some(all[l].expires); }
    }
    if next.None? { assert all == map[]; }
  }
}
