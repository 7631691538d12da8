/** Arithmetic in the field of Curve25519 on 16 Float64 limbs, as the browser
    client does it.  Every limb operation is a statement of its own whose
    result has the type `Exact`, so the verifier checks that each intermediate
    is an integer that no Float64 rounds: at most 2^53 in magnitude. */
module Field25519 {
  import opened Limbs

  type Exact = x: int | -0x20_0000_0000_0000 <= x <= 0x20_0000_0000_0000

  /** The limb magnitude for which multiplication is exact. */
  const LIMB_LIMIT: int := 0x20_0000

  lemma CarryFits(was: seq<int>, i: nat)
    requires |was| == 16 && i <= 16 && Bounded(was, 0x10_0000_0000_0000)
    ensures -0x20_0000_0001 <= CarryIn(was, i) <= 0x20_0000_0001
  {
    CarryBound(was, 0x10_0000_0000_0000, i);
  }

  /** One carry pass (`L`). */
  method Carry(o: array<Exact>)
    requires o.Length == 16
    requires Bounded(o[..], 0x10_0000_0000_0000)
    modifies o
    ensures o[..] == Carried(old(o[..]))
  {
    ghost var was: seq<int> := o[..];
    var c: Exact := 1;
    for i := 0 to 16
      invariant c == CarryIn(was, i) + 1
      invariant o[..i] == Reduced(was, i)
      invariant o[i..] == was[i..]
    {
      CarryFits(was, i);
      assert o[i] == o[i..][0] == was[i];
      var v: Exact := o[i] + c;
      v := v + 65535;
      c := v / 65536;
      var top: Exact := 65536 * c;
      o[i] := v - top;
      assert o[..i + 1] == o[..i] + [o[i]];
      assert o[i + 1..] == was[i..][1..] == was[i + 1..];
    }
    CarryFits(was, 16);
    assert o[..] == o[..16];
    var d: Exact := c - 1;
    var e: Exact := 37 * d;
    e := d + e;
    o[0] := o[0] + e;
  }

  /** `O`. */
  method Add(o: array<Exact>, a: array<Exact>, b: array<Exact>)
    requires o.Length == a.Length == b.Length == 16
    requires Bounded(a[..], LIMB_LIMIT) && Bounded(b[..], LIMB_LIMIT)
    modifies o
    ensures forall i :: 0 <= i < 16 ==> o[i] == old(a[i]) + old(b[i])
    ensures Value(o[..]) == old(Value(a[..]) + Value(b[..]))
  {
    ghost var a0: seq<int>, b0: seq<int> := a[..], b[..];
    for i := 0 to 16
      invariant forall j :: 0 <= j < i ==> o[j] == old(a[j]) + old(b[j])
      invariant forall j :: i <= j < 16 ==> o[j] == old(o[j]) && a[j] == old(a[j]) && b[j] == old(b[j])
    {
      o[i] := a[i] + b[i];
    }
    ValueCombine(o[..], a0, b0, 1);
  }

  /** `C`. */
  method Subtract(o: array<Exact>, a: array<Exact>, b: array<Exact>)
    requires o.Length == a.Length == b.Length == 16
    requires Bounded(a[..], LIMB_LIMIT) && Bounded(b[..], LIMB_LIMIT)
    modifies o
    ensures forall i :: 0 <= i < 16 ==> o[i] == old(a[i]) - old(b[i])
    ensures Value(o[..]) == old(Value(a[..]) - Value(b[..]))
  {
    ghost var a0: seq<int>, b0: seq<int> := a[..], b[..];
    for i := 0 to 16
      invariant forall j :: 0 <= j < i ==> o[j] == old(a[j]) - old(b[j])
      invariant forall j :: i <= j < 16 ==> o[j] == old(o[j]) && a[j] == old(a[j]) && b[j] == old(b[j])
    {
      o[i] := a[i] - b[i];
    }
    ValueCombine(o[..], a0, b0, -1);
  }

  // ---- multiplication ------------------------------------------------------

  lemma NatProduct(x: nat, y: nat, m: nat)
    requires x <= m && y <= m
    ensures x * y <= m * m
  {
    assert x * y <= m * y;
  }

  lemma LimbProduct(x: int, y: int)
    requires -LIMB_LIMIT <= x <= LIMB_LIMIT && -LIMB_LIMIT <= y <= LIMB_LIMIT
    ensures -0x400_0000_0000 <= x * y <= 0x400_0000_0000
  {
    var x', y' := if x < 0 then -x else x, if y < 0 then -y else y;
    NatProduct(x', y', LIMB_LIMIT);
    assert x * y == x' * y' || x * y == -(x' * y');
  }

  /** What the accumulators stand for after `i` whole rows and `j` products of
      the next. */
  ghost predicate Accumulated(acc: seq<int>, t: seq<int>, n: seq<int>, i: nat, j: nat)
    requires i < |t| && j <= |n|
  {
    Value(acc) == Value(t[..i]) * Value(n) + Shift(i, t[i] * Value(n[..j]))
  }

  lemma AccumulateProduct(acc: seq<int>, t: seq<int>, n: seq<int>, i: nat, j: nat)
    requires |acc| == 31 && |t| == |n| == 16 && i < 16 && j < 16
    requires Accumulated(acc, t, n, i, j)
    ensures Accumulated(acc[i + j := acc[i + j] + t[i] * n[j]], t, n, i, j + 1)
  {
    var e, v := t[i], Value(n[..j]);
    ValueUpdate(acc, i + j, e * n[j]);
    ShiftShift(i, j, e * n[j]);
    assert n[..j + 1] == n[..j] + [n[j]];
    ValueAppend(n[..j], n[j]);
    ShiftTimes(j, e, n[j]);
    Distribute(v, Shift(j, n[j]), e);
    ShiftSum(i, e * v, Shift(j, e * n[j]));
  }

  lemma Distribute(x: int, y: int, z: int)
    ensures z * (x + y) == z * x + z * y
  {
  }

  lemma AccumulateRow(acc: seq<int>, t: seq<int>, n: seq<int>, i: nat)
    requires |t| == |n| == 16 && i < 16
    requires Accumulated(acc, t, n, i, 16)
    ensures Value(acc) == Value(t[..i + 1]) * Value(n)
    ensures i + 1 < 16 ==> Accumulated(acc, t, n, i + 1, 0)
  {
    var v, row := Value(n), t[i] * Value(n);
    assert n[..16] == n;
    RowTotal(t, i, v, row);
    if i + 1 < 16 {
      assert n[..0] == [];
      ShiftTimes(i + 1, 0, 0);
    }
  }

  lemma RowTotal(t: seq<int>, i: nat, v: int, row: int)
    requires i < |t| && row == t[i] * v
    ensures Value(t[..i + 1]) * v == Value(t[..i]) * v + Shift(i, row)
  {
    var low, e := t[..i], t[i];
    assert t[..i + 1] == low + [e];
    ValueAppend(low, e);
    ShiftTimes(i, v, e);
    assert v * e == row;
    Distribute(Value(low), Shift(i, e), v);
  }

  /** The accumulators a row has reached hold one product more than the rest. */
  ghost predicate RowBound(acc: seq<int>, i: nat, reached: nat) {
    forall k :: 0 <= k < |acc| ==>
      var m := (if k < reached then i + 1 else i) * 0x400_0000_0000;
      -m <= acc[k] <= m
  }

  /** One row of products (the sixteen `+= e * n[j]` after `e = t[i]`). */
  method Row(acc: array<Exact>, t: array<Exact>, n: array<Exact>, i: nat)
    requires acc.Length == 31 && t.Length == n.Length == 16 && i < 16
    requires acc != t && acc != n
    requires Bounded(t[..], LIMB_LIMIT) && Bounded(n[..], LIMB_LIMIT)
    requires Accumulated(acc[..], t[..], n[..], i, 0)
    requires RowBound(acc[..], i, 0)
    modifies acc
    ensures Value(acc[..]) == Value(t[..i + 1]) * Value(n[..])
    ensures i + 1 < 16 ==> Accumulated(acc[..], t[..], n[..], i + 1, 0)
    ensures RowBound(acc[..], i + 1, 0)
  {
    var e: Exact := t[i];
    for j := 0 to 16
      invariant Accumulated(acc[..], t[..], n[..], i, j)
      invariant RowBound(acc[..], i, i + j)
    {
      LimbProduct(e, n[j]);
      AccumulateProduct(acc[..], t[..], n[..], i, j);
      var product: Exact := e * n[j];
      ghost var before: seq<int> := acc[..];
      assert before[i + j] == acc[i + j];
      acc[i + j] := acc[i + j] + product;
      assert acc[..] == before[i + j := before[i + j] + t[i] * n[j]];
    }
    AccumulateRow(acc[..], t[..], n[..], i);
    assert t[..][..i + 1] == t[..i + 1];
  }

  // ---- folding and the whole product ---------------------------------------

  /** The sixteen low accumulators with the fifteen high ones folded in: limb
      `k + 16` has weight 2^256 times that of limb `k`, which is 38 modulo P. */
  function Folded(acc: seq<int>, k: nat): (r: seq<int>)
    requires |acc| == 31 && k <= 15
    ensures |r| == k
    ensures forall i :: 0 <= i < k ==> r[i] == acc[i] + 38 * acc[i + 16]
  {
    if k == 0 then [] else Folded(acc, k - 1) + [acc[k - 1] + 38 * acc[k + 15]]
  }

  lemma FoldedValue(acc: seq<int>)
    requires |acc| == 31
    ensures Value(Folded(acc, 15) + [acc[15]]) == Value(acc) - 2 * P * Value(acc[16..])
  {
    var low, high := acc[..16], acc[16..];
    ValueCombine(Folded(acc, 15), acc[..15], high, 38);
    assert low == acc[..15] + [acc[15]];
    ValueAppend(acc[..15], acc[15]);
    ValueAppend(Folded(acc, 15), acc[15]);
    assert acc == low + high;
    ValueConcat(low, high);
    Shift16(Value(high));
  }

  /** The 256 products of `F`, gathered by weight into 31 accumulators. */
  method Products(t: array<Exact>, n: array<Exact>) returns (acc: array<Exact>)
    requires t.Length == n.Length == 16
    requires Bounded(t[..], LIMB_LIMIT) && Bounded(n[..], LIMB_LIMIT)
    ensures fresh(acc) && acc.Length == 31
    ensures Value(acc[..]) == Value(t[..]) * Value(n[..])
    ensures RowBound(acc[..], 16, 0)
  {
    acc := new Exact[31](_ => 0);
    assert forall k :: 0 <= k < 31 ==> acc[..][k] == 0;
    StartRows(acc[..], t[..], n[..]);
    for i := 0 to 16
      invariant i < 16 ==> Accumulated(acc[..], t[..], n[..], i, 0)
      invariant i == 16 ==> Value(acc[..]) == Value(t[..]) * Value(n[..])
      invariant RowBound(acc[..], i, 0)
    {
      Row(acc, t, n, i);
      assert i == 15 ==> t[..16] == t[..];
    }
  }

  /** The additions of `F` that bring the high accumulators back, times 38. */
  method Fold(acc: array<Exact>) returns (r: array<Exact>)
    requires acc.Length == 31 && RowBound(acc[..], 16, 0)
    ensures fresh(r) && r.Length == 16
    ensures Congruent(Value(r[..]), Value(acc[..]))
    ensures Bounded(r[..], 39 * 0x4000_0000_0000)
    ensures -0x4000_0000_0000 <= r[15] <= 0x4000_0000_0000
  {
    hide Value, Congruent, RowBound, Bounded;
    ghost var product: seq<int> := acc[..];
    r := new Exact[16];
    for k := 0 to 15
      invariant r[..k] == Folded(product, k)
    {
      RowBoundAt(product, k);
      RowBoundAt(product, k + 16);
      var fold: Exact := 38 * acc[k + 16];
      r[k] := acc[k] + fold;
      OneMore(r, k);
    }
    RowBoundAt(product, 15);
    r[15] := acc[15];
    OneMore(r, 15);
    assert r[..] == r[..16];
    FoldedWhole(product);
  }

  /** One more limb of an array. */
  lemma OneMore(r: array<Exact>, k: nat)
    requires k < r.Length
    ensures r[..k + 1] == r[..k] + [r[k]]
  {
  }

  lemma RowBoundAt(acc: seq<int>, k: nat)
    requires RowBound(acc, 16, 0) && k < |acc|
    ensures -0x4000_0000_0000 <= acc[k] <= 0x4000_0000_0000
  {
  }

  lemma FoldedWhole(acc: seq<int>)
    requires |acc| == 31 && RowBound(acc, 16, 0)
    ensures var r := Folded(acc, 15) + [acc[15]];
      && Congruent(Value(r), Value(acc))
      && Bounded(r, 39 * 0x4000_0000_0000)
      && -0x4000_0000_0000 <= r[15] <= 0x4000_0000_0000
  {
    FoldedValue(acc);
    FoldedBound(acc);
    CongruentByWhole(Value(Folded(acc, 15) + [acc[15]]), Value(acc), Value(acc[16..]));
  }

  lemma FoldedBound(acc: seq<int>)
    requires |acc| == 31 && RowBound(acc, 16, 0)
    ensures Bounded(Folded(acc, 15) + [acc[15]], 39 * 0x4000_0000_0000)
  {
    forall i | 0 <= i < 16
      ensures -39 * 0x4000_0000_0000 <= (Folded(acc, 15) + [acc[15]])[i] <= 39 * 0x4000_0000_0000
    {
      var x, y := acc[i], acc[if i < 15 then i + 16 else 0];
      assert i < 15 ==> Folded(acc, 15)[i] == x + 38 * y;
    }
  }

  lemma PassKeepsBound(s: seq<int>)
    requires |s| == 16 && Bounded(s, 39 * 0x4000_0000_0000)
    ensures Bounded(Carried(s), 0x10_0000_0000_0000)
  {
    CarryBound(s, 39 * 0x4000_0000_0000, 16);
  }

  /** `F`: the field product.  The output may be the same array as an input. */
  method Multiply(o: array<Exact>, t: array<Exact>, n: array<Exact>)
    requires o.Length == t.Length == n.Length == 16
    requires Bounded(t[..], LIMB_LIMIT) && Bounded(n[..], LIMB_LIMIT)
    modifies o
    ensures Congruent(Value(o[..]), old(Value(t[..]) * Value(n[..])))
    ensures Settled(o[..])
  {
    var acc := Products(t, n);
    var r := Fold(acc);
    ghost var folded: seq<int> := r[..];
    Carry(r);
    PassKeepsBound(folded);
    Carry(r);
    Normalised(folded);
    CongruentTrans(Value(r[..]), Value(folded), Value(acc[..]));
    CopyLimbs(o, r);
  }

  method CopyLimbs(o: array<Exact>, r: array<Exact>)
    requires o.Length == r.Length == 16 && o != r
    modifies o
    ensures o[..] == r[..]
  {
    for i := 0 to 16
      invariant o[..i] == r[..i]
    {
      o[i] := r[i];
      assert o[..i + 1] == o[..i] + [o[i]];
    }
    assert o[..] == o[..16] == r[..16] == r[..];
  }

  lemma {:induction false} ZeroValue(s: seq<int>)
    requires forall k :: 0 <= k < |s| ==> s[k] == 0
    ensures Value(s) == 0
  {
    if s != [] {
      ZeroValue(s[1..]);
    }
  }

  lemma StartRows(acc: seq<int>, t: seq<int>, n: seq<int>)
    requires |acc| == 31 && |t| == |n| == 16
    requires forall k :: 0 <= k < 31 ==> acc[k] == 0
    ensures Accumulated(acc, t, n, 0, 0)
    ensures RowBound(acc, 0, 0)
  {
    ZeroValue(acc);
    assert t[..0] == [] && n[..0] == [];
    assert Value(t[..0]) == 0 && Value(n[..0]) == 0;
  }

  /** The two carry passes that end the multiplication. */
  lemma Normalised(folded: seq<int>)
    requires |folded| == 16 && Bounded(folded, 39 * 0x4000_0000_0000)
    requires -0x4000_0000_0000 <= folded[15] <= 0x4000_0000_0000
    ensures Congruent(Value(Carried(Carried(folded))), Value(folded))
    ensures Settled(Carried(Carried(folded)))
  {
    TwoPassesSettle(folded);
    CarriedCongruent(folded);
    CarriedCongruent(Carried(folded));
    CongruentTrans(Value(Carried(Carried(folded))), Value(Carried(folded)), Value(folded));
  }
}
