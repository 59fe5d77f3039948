/** The Concat operator: its normalised axis and its shape inference. */
module ConcatOp {
  import opened Common
  import opened OperatorUtils

  /** The axis the constructor stores, normalised against the first input's rank. */
  function StoredAxis(inputs: seq<seq<nat>>, axis: int): (d: nat)
    requires |inputs| > 0 && |inputs[0]| >= 1
    requires -|inputs[0]| <= axis <= |inputs[0]| - 1
    ensures d < |inputs[0]|
    ensures d == axis || d == axis + |inputs[0]|
  {
    RealAxis(axis, |inputs[0]|)
  }

  /** Every input has the first input's rank, and the first input's dims on every axis but `dim`. */
  predicate Concatenable(inputs: seq<seq<nat>>, dim: int)
  {
    |inputs| > 0 && 0 <= dim < |inputs[0]| &&
    forall t :: 0 <= t < |inputs| ==>
      |inputs[t]| == |inputs[0]| &&
      forall i :: 0 <= i < |inputs[0]| && i != dim ==> inputs[t][i] == inputs[0][i]
  }

  /** Total extent of the inputs along `dim`. */
  function AxisSum(inputs: seq<seq<nat>>, dim: nat): nat
    requires forall t :: 0 <= t < |inputs| ==> dim < |inputs[t]|
  {
    if |inputs| == 0 then 0 else AxisSum(inputs[..|inputs| - 1], dim) + inputs[|inputs| - 1][dim]
  }

  /** The first input's shape with the concatenated extent on `dim`. */
  function ConcatShape(inputs: seq<seq<nat>>, dim: nat): seq<nat>
    requires Concatenable(inputs, dim)
  {
    inputs[0][dim := AxisSum(inputs, dim)]
  }

  /** inferShape: asserts a non-empty input list, an axis below the rank, and
      matching ranks and dims off the axis, while summing the extents on it. */
  method InferShape(inputs: seq<seq<nat>>, dim: int) returns (r: Result<seq<nat>>)
    ensures r.Ok? <==> Concatenable(inputs, dim)
    ensures r.Ok? ==> r.value == ConcatShape(inputs, dim)
    ensures r.Err? ==> r.failure == AssertFailed
  {
    if |inputs| == 0 {
      return Err(AssertFailed);
    }
    var dims := inputs[0];
    var rank := |dims|;
    if !(0 <= dim < rank) {
      return Err(AssertFailed);
    }
    var concatSize := 0;
    var t := 0;
    while t < |inputs|
      invariant 0 <= t <= |inputs|
      invariant forall u :: 0 <= u < t ==>
        |inputs[u]| == rank && forall i :: 0 <= i < rank && i != dim ==> inputs[u][i] == dims[i]
      invariant concatSize == AxisSum(inputs[..t], dim)
    {
      var curDims := inputs[t];
      if |curDims| != rank {
        return Err(AssertFailed);
      }
      var i := 0;
      while i < rank
        invariant 0 <= i <= rank
        invariant forall j :: 0 <= j < i && j != dim ==> curDims[j] == dims[j]
      {
        if i != dim && curDims[i] != dims[i] {
          return Err(AssertFailed);
        }
        i := i + 1;
      }
      assert inputs[..t + 1][..t] == inputs[..t];
      concatSize := concatSize + curDims[dim];
      t := t + 1;
    }
    assert inputs[..t] == inputs;
    dims := dims[dim := concatSize];
    return Ok(dims);
  }

  // ---------------------------------------------------------------------------
  // What the concatenated shape means
  // ---------------------------------------------------------------------------

  lemma ProductUpdate(s: seq<nat>, d: nat, x: nat)
    requires d < |s|
    ensures Product(s[d := x]) == Product(s[..d]) * x * Product(s[d + 1..])
  {
    var u := s[d := x];
    ProductSplit(u, d);
    assert u[..d] == s[..d];
    assert u[d..][1..] == s[d + 1..];
  }

  /** Total number of elements of the inputs. */
  function Elements(inputs: seq<seq<nat>>): nat
  {
    if |inputs| == 0 then 0 else Elements(inputs[..|inputs| - 1]) + Product(inputs[|inputs| - 1])
  }

  lemma Distribute(e: nat, a: nat, x: nat, outer: nat, inner: nat)
    requires e == outer * a * inner
    ensures e + outer * x * inner == outer * (a + x) * inner
  {
  }

  /** All inputs share the dims before and after the axis. */
  lemma {:induction false} CountSplit(inputs: seq<seq<nat>>, dim: nat, outer: nat, inner: nat)
    requires forall t :: 0 <= t < |inputs| ==> (dim < |inputs[t]| &&
      Product(inputs[t][..dim]) == outer && Product(inputs[t][dim + 1..]) == inner)
    ensures Elements(inputs) == outer * AxisSum(inputs, dim) * inner
  {
    if |inputs| > 0 {
      var k := |inputs| - 1;
      var front, last := inputs[..k], inputs[k];
      CountSplit(front, dim, outer, inner);
      ProductUpdate(last, dim, last[dim]);
      assert last[dim := last[dim]] == last;
      assert Product(last) == outer * last[dim] * inner;
      Distribute(Elements(front), AxisSum(front, dim), last[dim], outer, inner);
    }
  }

  /** Concatenation keeps the element count: the output has as many elements as all inputs together. */
  lemma ConcatCount(inputs: seq<seq<nat>>, dim: nat)
    requires Concatenable(inputs, dim)
    ensures Product(ConcatShape(inputs, dim)) == Elements(inputs)
  {
    var first := inputs[0];
    var outer, inner := Product(first[..dim]), Product(first[dim + 1..]);
    forall t | 0 <= t < |inputs|
      ensures Product(inputs[t][..dim]) == outer && Product(inputs[t][dim + 1..]) == inner
    {
      assert inputs[t][..dim] == first[..dim];
      assert inputs[t][dim + 1..] == first[dim + 1..];
    }
    CountSplit(inputs, dim, outer, inner);
    ProductUpdate(first, dim, AxisSum(inputs, dim));
  }

  /** (2,3) and (2,5) on axis 1 give (2,8). */
  lemma InferShapeExample()
    ensures Concatenable([[2, 3], [2, 5]], 1)
    ensures ConcatShape([[2, 3], [2, 5]], 1) == [2, 8]
  {
    var inputs: seq<seq<nat>> := [[2, 3], [2, 5]];
    assert inputs[..1] == [[2, 3]] && inputs[..1][..0] == [];
    assert AxisSum(inputs, 1) == 8;
  }
}
