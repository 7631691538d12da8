/** What a claim leases, and what its response and a page of a peek hold. */
module Claims {
  import opened Bits
  import opened InboxRows
  import opened Wrappers
  import Base64Url

  /** One item of a response. */
  datatype Envelope = Envelope(id: Id, sealed: seq<Byte>)

  function EnvelopeOf(r: Row): Envelope { Envelope(r.id, Base64Url.Encode(r.sealed)) }

  /** The item names the message, and its text decodes to the stored bytes. */
  ghost predicate Carries(e: Envelope, r: Row) {
    e.id == r.id && Base64Url.Decode(e.sealed) == Some(r.sealed)
  }

  lemma EnvelopeCarries(r: Row)
    ensures Carries(EnvelopeOf(r), r)
  {
    hide Base64Url.Encode, Base64Url.Decode;
    Base64Url.DecodeInvertsEncode(r.sealed, Base64Url.Encode(r.sealed));
  }

  lemma ItemsCarry(items: seq<Envelope>, rows: seq<Row>)
    requires |items| <= |rows| && forall i :: 0 <= i < |items| ==> items[i] == EnvelopeOf(rows[i])
    ensures forall i :: 0 <= i < |items| ==> items[i].id == rows[i].id && Base64Url.Decode(items[i].sealed) == Some(rows[i].sealed)
  {
    hide EnvelopeOf, Base64Url.Decode;
    forall i | 0 <= i < |items| ensures Carries(items[i], rows[i]) { EnvelopeCarries(rows[i]); }
  }

  /** `sum(..) OVER (ORDER BY created_at, id)` at the `i`-th candidate. */
  function RunningSum(candidates: seq<Row>, i: nat): nat
    requires i < |candidates|
  {
    SqlCost(candidates[i]) + if i == 0 then 0 else RunningSum(candidates, i - 1)
  }

  /** The candidates among the first `n` with `used <= BUDGET`. */
  function ChosenAmong(candidates: seq<Row>, n: nat): seq<Row>
    requires n <= |candidates|
  {
    if n == 0 then []
    else if RunningSum(candidates, n - 1) <= BUDGET then ChosenAmong(candidates, n - 1) + [candidates[n - 1]]
    else ChosenAmong(candidates, n - 1)
  }

  /** The rows a claim leases. */
  function Chosen(candidates: seq<Row>): seq<Row> { ChosenAmong(candidates, |candidates|) }

  /** The longest prefix of the rows that fits the budget. */
  ghost predicate Fits(rows: seq<Row>, n: nat) {
    && n <= |rows| && TotalCost(rows[..n]) <= BUDGET
    && (n < |rows| ==> TotalCost(rows[..n + 1]) > BUDGET)
  }

  lemma TotalCostNext(rows: seq<Row>, i: nat)
    requires i < |rows|
    ensures TotalCost(rows[..i + 1]) == TotalCost(rows[..i]) + ItemCost(rows[i])
  {
    assert rows[..i + 1][..i] == rows[..i];
  }

  lemma {:induction false} TotalCostGrows(rows: seq<Row>, i: nat, j: nat)
    requires i <= j <= |rows|
    ensures TotalCost(rows[..i]) <= TotalCost(rows[..j])
    decreases j - i
  {
    if i < j {
      TotalCostNext(rows, j - 1);
      TotalCostGrows(rows, i, j - 1);
    }
  }

  lemma {:induction false} RunningSumIsTotal(candidates: seq<Row>, i: nat)
    requires i < |candidates|
    ensures RunningSum(candidates, i) == TotalCost(candidates[..i + 1])
  {
    CostsAgree(candidates[i]);
    TotalCostNext(candidates, i);
    if i > 0 { RunningSumIsTotal(candidates, i - 1); } else { assert candidates[..0] == []; }
  }

  /** The SQL filter takes a prefix: the longest that fits. */
  lemma {:induction false} ChosenIsPrefix(candidates: seq<Row>, k: nat, n: nat)
    requires Fits(candidates, n) && k <= |candidates|
    ensures ChosenAmong(candidates, k) == candidates[..if k < n then k else n]
  {
    hide RunningSum, TotalCost;
    if k > 0 {
      ChosenIsPrefix(candidates, k - 1, n);
      RunningSumIsTotal(candidates, k - 1);
      if k <= n {
        TotalCostGrows(candidates, k, n);
        assert candidates[..k] == candidates[..k - 1] + [candidates[k - 1]];
      } else {
        TotalCostGrows(candidates, n + 1, k);
      }
    }
  }

  lemma {:induction false} SomePrefixFits(rows: seq<Row>, k: nat) returns (n: nat)
    requires k <= |rows| && TotalCost(rows[..k]) <= BUDGET
    ensures Fits(rows, n) && k <= n
    decreases |rows| - k
  {
    n := k;
    if k < |rows| && TotalCost(rows[..k + 1]) <= BUDGET {
      n := SomePrefixFits(rows, k + 1);
    }
  }

  /** `envelopes_from_rows`. */
  method EnvelopesFromRows(rows: seq<Row>) returns (items: seq<Envelope>)
    ensures Fits(rows, |items|)
    ensures forall i :: 0 <= i < |items| ==> items[i] == EnvelopeOf(rows[i])
    ensures forall i :: 0 <= i < |items| ==> items[i].id == rows[i].id && Base64Url.Decode(items[i].sealed) == Some(rows[i].sealed)
  {
    hide EnvelopeOf, Base64Url.Decode;
    items := [];
    var used := 0;
    assert rows[..0] == [];
    for n := 0 to |rows|
      invariant |items| == n && used == TotalCost(rows[..n]) <= BUDGET
      invariant forall i :: 0 <= i < n ==> items[i] == EnvelopeOf(rows[i])
    {
      var cost := ItemCost(rows[n]);
      TotalCostNext(rows, n);
      if used + cost > BUDGET { ItemsCarry(items, rows); return; }
      used := used + cost;
      items := items + [EnvelopeOf(rows[n])];
    }
    assert rows[..|rows|] == rows;
    ItemsCarry(items, rows);
  }

  lemma ChosenFit(candidates: seq<Row>)
    ensures TotalCost(Chosen(candidates)) <= BUDGET
  {
    hide ChosenAmong;
    assert candidates[..0] == [];
    var n := SomePrefixFits(candidates, 0);
    ChosenIsPrefix(candidates, |candidates|, n);
  }

  /** Whatever the order in which the leased rows come back, all of them fit. */
  lemma LeasedFit(candidates: seq<Row>, rows: seq<Row>)
    requires multiset(rows) == multiset(Chosen(candidates))
    ensures TotalCost(rows) <= BUDGET
    ensures forall n :: Fits(rows, n) ==> n == |rows|
  {
    hide Chosen, TotalCost;
    ChosenFit(candidates);
    TotalCostPermutes(rows, Chosen(candidates));
    assert rows[..|rows|] == rows;
    forall k: nat | Fits(rows, k) ensures k == |rows| {
      if k < |rows| { TotalCostGrows(rows, k + 1, |rows|); }
    }
  }

  /** A claim's response holds exactly the rows that it leases, each once; they are a
      prefix of the candidates, and there is one if there is a candidate at all. */
  lemma LeasedIffReturned(candidates: seq<Row>, rows: seq<Row>, items: seq<Envelope>)
    requires multiset(rows) == multiset(Chosen(candidates))
    requires Fits(rows, |items|) && forall i :: 0 <= i < |items| ==> items[i] == EnvelopeOf(rows[i])
    ensures |items| == |Chosen(candidates)|
    ensures forall r :: r in Chosen(candidates) ==> EnvelopeOf(r) in items
    ensures forall e :: e in items ==> exists r :: r in Chosen(candidates) && e == EnvelopeOf(r)
    ensures Chosen(candidates) <= candidates
    ensures candidates != [] && Sized(candidates[0]) ==> items != []
  {
    hide EnvelopeOf, Chosen, Fits;
    LeasedFit(candidates, rows);
    assert |multiset(rows)| == |rows| && |multiset(Chosen(candidates))| == |Chosen(candidates)|;
    forall r | r in Chosen(candidates) ensures EnvelopeOf(r) in items {
      assert r in multiset(rows);
      var k :| 0 <= k < |rows| && rows[k] == r;
      assert items[k] == EnvelopeOf(r);
    }
    forall e | e in items ensures exists r :: r in Chosen(candidates) && e == EnvelopeOf(r) {
      var k :| 0 <= k < |items| && items[k] == e;
      assert rows[k] in multiset(Chosen(candidates));
    }
    PrefixChosen(candidates);
  }

  lemma PrefixChosen(candidates: seq<Row>)
    ensures Chosen(candidates) <= candidates
    ensures candidates != [] && Sized(candidates[0]) ==> Chosen(candidates) != []
    ensures var n := |Chosen(candidates)|; n < |candidates| ==> TotalCost(candidates[..n + 1]) > BUDGET
  {
    assert candidates[..0] == [];
    var k := 0;
    if candidates != [] && Sized(candidates[0]) {
      SizedFits(candidates[0]);
      TotalCostNext(candidates, 0);
      k := 1;
    }
    var n := SomePrefixFits(candidates, k);
    ChosenIsPrefix(candidates, |candidates|, n);
  }
}
