/** The MatMul operator's shape inference: the m, n and k it derives from the
    last two dims of each operand (after the transpose flags), and the batch
    dims it broadcasts. */
module MatmulOp {
  import opened Common
  import opened OperatorUtils
  import opened Permutations
  import opened TransposeOp

  /** The derived sizes the operator records: C is m x n and the contraction has length k. */
  datatype Mnk = Mnk(m: nat, n: nat, k: nat)

  /** What shape inference yields: the output dims and the sizes to store on the operator. */
  datatype Inferred = Inferred(output: seq<nat>, mnk: Mnk)

  function RowsA(a: seq<nat>, transA: bool): nat
    requires |a| >= 2
  {
    if transA then a[|a| - 1] else a[|a| - 2]
  }

  function InnerA(a: seq<nat>, transA: bool): nat
    requires |a| >= 2
  {
    if transA then a[|a| - 2] else a[|a| - 1]
  }

  function InnerB(b: seq<nat>, transB: bool): nat
    requires |b| >= 2
  {
    if transB then b[|b| - 1] else b[|b| - 2]
  }

  function ColsB(b: seq<nat>, transB: bool): nat
    requires |b| >= 2
  {
    if transB then b[|b| - 2] else b[|b| - 1]
  }

  /** Batch position `i` of an operand right-aligned to rank `maxRank`; positions
      in front of the operand read as 1. */
  function BatchDim(s: seq<nat>, maxRank: nat, i: nat): nat
    requires i < maxRank
  {
    if i + |s| >= maxRank then s[i + |s| - maxRank] else 1
  }

  predicate BatchCompatible(a: seq<nat>, b: seq<nat>)
  {
    var maxRank := Max(|a|, |b|);
    forall i: nat :: i + 2 < maxRank ==>
      Compatible(BatchDim(a, maxRank, i), BatchDim(b, maxRank, i))
  }

  /** Each batch dim is the larger of the two aligned dims. */
  function BatchDims(a: seq<nat>, b: seq<nat>): seq<nat>
    requires |a| >= 2 && |b| >= 2
  {
    var maxRank := Max(|a|, |b|);
    seq(maxRank - 2, i requires 0 <= i < maxRank - 2 => Max(BatchDim(a, maxRank, i), BatchDim(b, maxRank, i)) as nat)
  }

  /** The shape inference of the operator with flags `transA` and `transB`. */
  function Infer(a: seq<nat>, b: seq<nat>, transA: bool, transB: bool): Result<Inferred>
  {
    if |a| < 2 || |b| < 2 then Err(NoShape)
    else if InnerA(a, transA) != InnerB(b, transB) then Err(NoShape)
    else if !BatchCompatible(a, b) then Err(NoShape)
    else
      var m, n := RowsA(a, transA), ColsB(b, transB);
      Ok(Inferred(BatchDims(a, b) + [m, n], Mnk(m, n, InnerA(a, transA))))
  }

  /** inferShape: rank and contraction checks, then the batch dims pushed one by
      one, then m and n. */
  method InferShape(a: seq<nat>, b: seq<nat>, transA: bool, transB: bool) returns (r: Result<Inferred>)
    ensures r == Infer(a, b, transA, transB)
  {
    var rankA, rankB := |a|, |b|;
    if rankA < 2 || rankB < 2 {
      return Err(NoShape);
    }
    var m, kA := if transA then a[rankA - 1] else a[rankA - 2], if transA then a[rankA - 2] else a[rankA - 1];
    var kB, n := if transB then b[rankB - 1] else b[rankB - 2], if transB then b[rankB - 2] else b[rankB - 1];
    if kA != kB {
      return Err(NoShape);
    }
    var maxRank := Max(rankA, rankB);
    var output: seq<nat> := [];
    var i := 0;
    while i < maxRank - 2
      invariant 0 <= i <= maxRank - 2
      invariant forall j: nat :: j < i ==> Compatible(BatchDim(a, maxRank, j), BatchDim(b, maxRank, j))
      invariant output == BatchDims(a, b)[..i]
    {
      var dimA := if i + rankA >= maxRank then a[i + rankA - maxRank] else 1;
      var dimB := if i + rankB >= maxRank then b[i + rankB - maxRank] else 1;
      assert dimA == BatchDim(a, maxRank, i) && dimB == BatchDim(b, maxRank, i);
      if dimA != dimB && dimA != 1 && dimB != 1 {
        return Err(NoShape);
      }
      assert BatchDims(a, b)[..i + 1] == BatchDims(a, b)[..i] + [Max(dimA, dimB) as nat];
      output := output + [Max(dimA, dimB) as nat];
      i := i + 1;
    }
    assert BatchDims(a, b)[..i] == BatchDims(a, b);
    assert BatchCompatible(a, b);
    output := output + [m];
    output := output + [n];
    assert output == BatchDims(a, b) + [m, n];
    return Ok(Inferred(output, Mnk(m, n, kA)));
  }

  // ---------------------------------------------------------------------------
  // What the inferred shape means
  // ---------------------------------------------------------------------------

  /** Inference succeeds exactly when both operands have rank at least 2, the
      contraction sizes agree and the batch dims are compatible; the output has
      the larger rank and ends in [m, n]. */
  lemma InferMeaning(a: seq<nat>, b: seq<nat>, transA: bool, transB: bool)
    ensures Infer(a, b, transA, transB).Ok? <==>
      |a| >= 2 && |b| >= 2 && InnerA(a, transA) == InnerB(b, transB) && BatchCompatible(a, b)
    ensures Infer(a, b, transA, transB).Ok? ==>
      var r := Infer(a, b, transA, transB).value;
      var rank := Max(|a|, |b|);
      |r.output| == rank && r.output[rank - 2] == r.mnk.m == RowsA(a, transA) &&
      r.output[rank - 1] == r.mnk.n == ColsB(b, transB) && r.mnk.k == InnerB(b, transB)
  {
  }

  /** With positive batch dims the batch part is the multidirectional broadcast
      of the two batch prefixes; the operator reads a missing dim as 1 and takes
      the larger dim, which agrees with broadcasting except on a dim of 0. */
  lemma BatchIsBroadcast(a: seq<nat>, b: seq<nat>)
    requires |a| >= 2 && |b| >= 2
    requires Positive(a[..|a| - 2]) && Positive(b[..|b| - 2])
    ensures BatchCompatible(a, b) <==> Broadcastable(a[..|a| - 2], b[..|b| - 2])
    ensures BatchCompatible(a, b) ==> BatchDims(a, b) == BroadcastShape(a[..|a| - 2], b[..|b| - 2])
  {
    var a', b' := a[..|a| - 2], b[..|b| - 2];
    var maxRank := Max(|a|, |b|);
    var n := maxRank - 2;
    assert Max(|a'|, |b'|) == n;
    forall i: nat | i < n
      ensures BatchDim(a, maxRank, i) == DimFromRight(a', n - 1 - i)
      ensures BatchDim(b, maxRank, i) == DimFromRight(b', n - 1 - i)
    {
    }
    if BatchCompatible(a, b) {
      forall j: nat | j < n ensures Compatible(DimFromRight(a', j), DimFromRight(b', j)) {
        assert Compatible(BatchDim(a, maxRank, n - 1 - j), BatchDim(b, maxRank, n - 1 - j));
      }
      var r, s := BatchDims(a, b), BroadcastShape(a', b');
      forall i | 0 <= i < n ensures r[i] == s[i] {
        var x, y := BatchDim(a, maxRank, i), BatchDim(b, maxRank, i);
        assert Compatible(x, y);
        assert s[i] == Combine(x, y);
        assert x > 0 && y > 0 by {
          if i + |a| >= maxRank { assert a'[i + |a| - maxRank] == x; }
          if i + |b| >= maxRank { assert b'[i + |b| - maxRank] == y; }
        }
      }
    }
    if Broadcastable(a', b') {
      forall i: nat | i + 2 < maxRank
        ensures Compatible(BatchDim(a, maxRank, i), BatchDim(b, maxRank, i))
      {
        assert Compatible(DimFromRight(a', n - 1 - i), DimFromRight(b', n - 1 - i));
      }
    }
  }

  /** Reading A through a transpose of its last two dims is the same as flipping
      `transA`: the output and the recorded m, n, k agree. */
  lemma SwapFlipsTransA(a: seq<nat>, b: seq<nat>, transA: bool, transB: bool)
    requires |a| >= 2
    ensures Infer(SwapLastTwo(a), b, transA, transB) == Infer(a, b, !transA, transB)
  {
    var a' := SwapLastTwo(a);
    assert |a'| == |a|;
    var maxRank := Max(|a|, |b|);
    forall i: nat | i + 2 < maxRank ensures BatchDim(a', maxRank, i) == BatchDim(a, maxRank, i) {
    }
    if |b| >= 2 {
      assert BatchDims(a', b) == BatchDims(a, b);
    }
  }

  /** Reading B through a transpose of its last two dims is the same as flipping `transB`. */
  lemma SwapFlipsTransB(a: seq<nat>, b: seq<nat>, transA: bool, transB: bool)
    requires |b| >= 2
    ensures Infer(a, SwapLastTwo(b), transA, transB) == Infer(a, b, transA, !transB)
  {
    var b' := SwapLastTwo(b);
    assert |b'| == |b|;
    var maxRank := Max(|a|, |b|);
    forall i: nat | i + 2 < maxRank ensures BatchDim(b', maxRank, i) == BatchDim(b, maxRank, i) {
    }
    if |a| >= 2 {
      assert BatchDims(a, b') == BatchDims(a, b);
    }
  }

  /** (2,3) x (3,4) without transposes gives (2,4) and records m, n, k = 2, 4, 3. */
  lemma InferExample()
    ensures Infer([2, 3], [3, 4], false, false) == Ok(Inferred([2, 4], Mnk(2, 4, 3)))
  {
    var a: seq<nat>, b: seq<nat> := [2, 3], [3, 4];
    assert BatchDims(a, b) == [];
    assert BatchCompatible(a, b);
    assert InnerA(a, false) == InnerB(b, false) == 3;
    assert RowsA(a, false) == 2 && ColsB(b, false) == 4;
    assert [] + [2, 4] == [2, 4];
  }
}
