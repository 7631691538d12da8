/** The stored messages of one inbox and their leases, and what claims, releases and
    acknowledgements do to them. */
module InboxTable {
  import opened Wrappers
  import opened InboxRows

  /** `CLAIM_RECOVERY_SECONDS`. */
  const RECOVERY: Time := 600 * 1_000_000

  /** A stored row and the end of its lease. */
  datatype Stored = Stored(row: Row, lease: Option<Time>)

  type Table = map<Id, Stored>

  predicate Ready(x: Stored, now: Time) { x.lease.None? || x.lease.value <= now }

  function Ids(rows: seq<Row>): (ids: seq<Id>)
    ensures |ids| == |rows|
  {
    seq(|rows|, i requires 0 <= i < |rows| => rows[i].id)
  }

  ghost predicate DistinctIds(rows: seq<Row>) {
    forall i, j :: 0 <= i < j < |rows| ==> rows[i].id != rows[j].id
  }

  /** `claim_once`. */
  function Lease(table: Table, ids: seq<Id>, until: Time): Table {
    map id | id in table :: if id in ids then Stored(table[id].row, Some(until)) else table[id]
  }

  /** `release_messages`. */
  function Unlease(table: Table, ids: seq<Id>): Table {
    map id | id in table :: if id in ids then Stored(table[id].row, None) else table[id]
  }

  /** `ack_messages`. */
  function Remove(table: Table, ids: seq<Id>): Table {
    map id | id in table && id !in ids :: table[id]
  }
}
