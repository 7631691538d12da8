/** The tables of the distributed semaphore: resources with a count of numbered
    positions, and leases on positions that expire. */
module Leases {
  import opened Wrappers

  type Uuid = nat
  /** Microseconds. */
  type Time = nat

  datatype Lease = Lease(resource: Uuid, position: nat, expires: Time)

  type LeaseTable = map<Uuid, Lease>

  /** The unique index on resource and position. */
  ghost predicate DistinctPositions(leases: LeaseTable) {
    forall a, b :: a in leases && b in leases && a != b && leases[a].resource == leases[b].resource ==>
      leases[a].position != leases[b].position
  }

  /** The leases of a resource that have not expired. */
  function Live(leases: LeaseTable, resource: Uuid, now: Time): LeaseTable {
    map l | l in leases && leases[l].resource == resource && leases[l].expires > now :: leases[l]
  }

  /** Without the resource's expired leases. */
  function Swept(leases: LeaseTable, resource: Uuid, now: Time): LeaseTable {
    map l | l in leases && !(leases[l].resource == resource && leases[l].expires <= now) :: leases[l]
  }

  function Counted(leases: LeaseTable, resource: Uuid, count: nat, now: Time): set<Uuid> {
    set l | l in Live(leases, resource, now) && leases[l].position < count
  }

  /** The `in_use` of a resource. */
  function InUse(leases: LeaseTable, resource: Uuid, count: nat, now: Time): nat {
    |Counted(leases, resource, count, now)|
  }

  function Positions(leases: LeaseTable, resource: Uuid): set<nat> {
    set l | l in leases && leases[l].resource == resource :: leases[l].position
  }

  /** `min(gs)` over the series from `p` to `count - 1` without the taken positions. */
  function LeastFree(taken: set<nat>, p: nat, count: nat): Option<nat>
    decreases count - p
  {
    if p >= count then None else if p !in taken then Some(p) else LeastFree(taken, p + 1, count)
  }

  lemma {:induction false} LeastFreeIs(taken: set<nat>, p: nat, count: nat)
    ensures match LeastFree(taken, p, count)
            case Some(q) => p <= q < count && q !in taken && forall i :: p <= i < q ==> i in taken
            case None => forall i :: p <= i < count ==> i in taken
    decreases count - p
  {
    if p < count && p in taken { LeastFreeIs(taken, p + 1, count); }
  }

  function Below(count: nat): (range: set<nat>)
    ensures forall i: nat :: i in range <==> i < count
  {
    if count == 0 then {} else Below(count - 1) + {count - 1}
  }

  lemma {:induction false} BelowSize(count: nat)
    ensures |Below(count)| == count
  {
    if count > 0 {
      BelowSize(count - 1);
    }
  }

  lemma SubsetSize(a: set<nat>, b: set<nat>)
    requires a <= b
    ensures |a| <= |b| && (|a| == |b| ==> a == b)
  {
    assert |b - a| == |b| - |a|;
  }

  /** Leases on distinct positions are as many as their positions. */
  lemma {:induction false} AsManyAsPositions(leases: LeaseTable, ids: set<Uuid>, positions: set<nat>)
    requires ids <= leases.Keys
    requires forall a, b :: a in ids && b in ids && a != b ==> leases[a].position != leases[b].position
    requires forall p :: p in positions <==> exists l :: l in ids && leases[l].position == p
    ensures |ids| == |positions|
    decreases ids
  {
    if ids == {} {
      if p :| p in positions { assert false; }
      assert positions == {};
    } else {
      var l :| l in ids;
      forall p ensures p in positions - {leases[l].position} <==> exists m :: m in ids - {l} && leases[m].position == p {
        if m :| m in ids - {l} && leases[m].position == p { assert p in positions; }
      }
      AsManyAsPositions(leases, ids - {l}, positions - {leases[l].position});
      assert leases[l].position in positions;
    }
  }

  function TakenBelow(leases: LeaseTable, resource: Uuid, count: nat, now: Time): set<nat> {
    Positions(Live(leases, resource, now), resource) * Below(count)
  }

  lemma CountedPositions(leases: LeaseTable, resource: Uuid, count: nat, now: Time)
    requires DistinctPositions(leases)
    ensures InUse(leases, resource, count, now) == |TakenBelow(leases, resource, count, now)|
  {
    var ids, positions := Counted(leases, resource, count, now), TakenBelow(leases, resource, count, now);
    forall p: nat ensures p in positions <==> exists l :: l in ids && leases[l].position == p {
      var live := Live(leases, resource, now);
      if p in positions {
        var l :| l in live && live[l].position == p;
        assert l in ids;
      }
    }
    AsManyAsPositions(leases, ids, positions);
  }

  /** The leases on positions below `count` are at most `count`, and exactly `count`
      when every position is taken. */
  lemma Pigeonhole(leases: LeaseTable, resource: Uuid, count: nat, now: Time)
    requires DistinctPositions(leases)
    ensures InUse(leases, resource, count, now) <= count
    ensures InUse(leases, resource, count, now) == count <==>
            forall p: nat :: p < count ==> p in Positions(Live(leases, resource, now), resource)
  {
    hide InUse, DistinctPositions, Positions, Live;
    CountedPositions(leases, resource, count, now);
    BelowSize(count);
    SubsetSize(TakenBelow(leases, resource, count, now), Below(count));
    if TakenBelow(leases, resource, count, now) == Below(count) {
      forall p: nat | p < count ensures p in Positions(Live(leases, resource, now), resource) {
        assert p in TakenBelow(leases, resource, count, now);
      }
    }
    if forall p: nat :: p < count ==> p in Positions(Live(leases, resource, now), resource) {
      assert TakenBelow(leases, resource, count, now) == Below(count);
    }
  }
}
