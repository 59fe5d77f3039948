/** The index logic of the naive CPU concat kernel: the block sizes it
    derives from the dims, where each input's slab starts, and the copy of
    each input's rows into its slab of every output block. */
module ConcatKernel {
  import opened Common
  import opened OperatorUtils
  import opened ConcatOp

  // ---------------------------------------------------------------------------
  // Integer facts the offsets rest on
  // ---------------------------------------------------------------------------

  lemma SlotDivMod(o: nat, x: nat, b: nat)
    requires x < b
    ensures (o * b + x) / b == o && (o * b + x) % b == x
  {
    DivMod(o * b + x, b, o, x);
  }

  lemma SlotBelow(o: nat, x: nat, outer: nat, b: nat)
    requires o < outer && x < b
    ensures o * b + x < outer * b
  {
    assert o * b + x < (o + 1) * b;
    assert (o + 1) * b <= outer * b;
  }

  lemma MulMono(c: nat, a: nat, b: nat)
    requires a <= b
    ensures c * a <= c * b
  {
  }

  lemma MulAdd(c: nat, a: nat, b: nat)
    ensures c * (a + b) == c * a + c * b
  {
  }

  // ---------------------------------------------------------------------------
  // One input's copy
  // ---------------------------------------------------------------------------

  /** Offset `n` of row `o` in a slab that starts `off` into blocks of `b`. */
  function OutSlot(o: nat, n: nat, b: nat, off: nat): nat
  {
    o * b + n + off
  }

  /** Offset `n` of row `o` of an input whose rows have `inner` elements. */
  function InSlot(o: nat, n: nat, inner: nat): nat
  {
    o * inner + n
  }

  /** `k` lies in the slab [off, off + inner) of one of the first `outer` blocks of `b`. */
  predicate InSlab(k: nat, outer: nat, inner: nat, b: nat, off: nat)
  {
    b > 0 && k / b < outer && off <= k % b < off + inner
  }

  /** A slot of the slab lies in the slab, inside the first `outer` blocks, and
      its block and place in the block give back its row and offset. */
  lemma SlotInSlab(o: nat, n: nat, outer: nat, inner: nat, b: nat, off: nat)
    requires o < outer && n < inner && off + inner <= b
    ensures OutSlot(o, n, b, off) < outer * b
    ensures OutSlot(o, n, b, off) / b == o && OutSlot(o, n, b, off) % b == n + off
    ensures InSlab(OutSlot(o, n, b, off), outer, inner, b, off)
  {
    SlotDivMod(o, n + off, b);
    SlotBelow(o, n + off, outer, b);
  }

  lemma InSlotBelow(o: nat, n: nat, outer: nat, inner: nat)
    requires o < outer && n < inner
    ensures InSlot(o, n, inner) < outer * inner
  {
    SlotBelow(o, n, outer, inner);
  }

  /** The copy loop for one input: row `o` of the input goes to offset `off` of
      output block `o`; nothing outside that slab changes. */
  method CopyBlock<T>(input: seq<T>, out: array<T>, outer: nat, inner: nat, b: nat, off: nat)
    requires |input| == outer * inner
    requires off + inner <= b && outer * b <= out.Length
    modifies out
    ensures forall o: nat, n: nat :: o < outer && n < inner ==>
      OutSlot(o, n, b, off) < out.Length && InSlot(o, n, inner) < |input| &&
      out[OutSlot(o, n, b, off)] == input[InSlot(o, n, inner)]
    ensures forall k :: 0 <= k < out.Length && !InSlab(k, outer, inner, b, off) ==> out[k] == old(out[k])
  {
    for o := 0 to outer
      invariant forall o': nat, n: nat :: o' < o && n < inner ==>
        OutSlot(o', n, b, off) < out.Length && InSlot(o', n, inner) < |input| &&
        out[OutSlot(o', n, b, off)] == input[InSlot(o', n, inner)]
      invariant forall k :: 0 <= k < out.Length && !InSlab(k, outer, inner, b, off) ==> out[k] == old(out[k])
    {
      for n := 0 to inner
        invariant forall o': nat, n': nat :: o' < o && n' < inner ==>
          OutSlot(o', n', b, off) < out.Length && InSlot(o', n', inner) < |input| &&
          out[OutSlot(o', n', b, off)] == input[InSlot(o', n', inner)]
        invariant forall n': nat :: n' < n ==>
          OutSlot(o, n', b, off) < out.Length && InSlot(o, n', inner) < |input| &&
          out[OutSlot(o, n', b, off)] == input[InSlot(o, n', inner)]
        invariant forall k :: 0 <= k < out.Length && !InSlab(k, outer, inner, b, off) ==> out[k] == old(out[k])
      {
        var inIdx := o * inner + n;
        var outIdx := o * b + n + off;
        SlotInSlab(o, n, outer, inner, b, off);
        InSlotBelow(o, n, outer, inner);
        forall o': nat, n': nat | o' < outer && n' < inner && (o' != o || n' != n)
          ensures OutSlot(o', n', b, off) != outIdx
        {
          SlotInSlab(o', n', outer, inner, b, off);
        }
        out[outIdx] := input[inIdx];
      }
    }
  }

  // ---------------------------------------------------------------------------
  // The block sizes and offsets
  // ---------------------------------------------------------------------------

  /** blockOffsetInner: the product of the output dims after the axis, taken from the innermost. */
  method BlockOffsetInner(outDim: seq<nat>, dim: nat) returns (r: nat)
    requires dim < |outDim|
    ensures r == Product(outDim[dim + 1..])
  {
    r := 1;
    var i := |outDim| - 1;
    assert outDim[i + 1..] == [];
    while i > dim
      invariant dim <= i < |outDim| && r == Product(outDim[i + 1..])
    {
      assert outDim[i..][1..] == outDim[i + 1..];
      r := r * outDim[i];
      i := i - 1;
    }
  }

  /** dimOffset: the extents along the axis of the inputs before input `i`. */
  method DimOffset(iDims: seq<seq<nat>>, dim: nat, i: nat) returns (r: nat)
    requires i <= |iDims| && forall t :: 0 <= t < |iDims| ==> dim < |iDims[t]|
    ensures r == AxisSum(iDims[..i], dim)
  {
    r := 0;
    for j := 0 to i
      invariant r == AxisSum(iDims[..j], dim)
    {
      assert iDims[..j + 1][..j] == iDims[..j];
      r := r + iDims[j][dim];
    }
  }

  /** localBlockOffset: the product of the input's dims from the axis on. The
      index is unsigned in the kernel, so on axis 0 it is the wrap to -1 that
      ends the loop; -1 stands for that value here. */
  method LocalBlockOffset(iDim: seq<nat>, dim: nat) returns (r: nat)
    requires dim < |iDim|
    ensures r == Product(iDim[dim..])
  {
    r := 1;
    var i := |iDim| - 1;
    assert iDim[i + 1..] == [];
    while i >= dim && i != -1
      invariant dim - 1 <= i < |iDim| && r == Product(iDim[i + 1..])
      decreases i + 1
    {
      assert iDim[i..][1..] == iDim[i + 1..];
      r := r * iDim[i];
      i := i - 1;
    }
    assert i + 1 == dim;
  }

  /** outerSize, as evidently intended: the product of the input's dims before the axis. */
  method OuterSize(iDim: seq<nat>, dim: nat) returns (r: nat)
    requires dim <= |iDim|
    ensures r == Product(iDim[..dim])
  {
    r := 1;
    for i := 0 to dim
      invariant r == Product(iDim[..i])
    {
      assert iDim[..i + 1][..i] == iDim[..i];
      ProductInit(iDim[..i + 1]);
      r := r * iDim[i];
    }
  }

  /** outerSize as the kernel writes it: the loop index shadows the input
      index, so it multiplies dim `j` of input `j`, for every `j` below the
      axis; `None` where that reads past the input list. */
  function OuterSizeAsWritten(iDims: seq<seq<nat>>, dim: nat): Option<nat>
  {
    if dim == 0 then Some(1)
    else
      match OuterSizeAsWritten(iDims, dim - 1)
      case None => None
      case Some(p) =>
        var j := dim - 1;
        if j < |iDims| && j < |iDims[j]| then Some(p * iDims[j][j]) else None
  }

  lemma {:induction false} AsWrittenPrefix(iDims: seq<seq<nat>>, dim: nat, t: nat, d: nat)
    requires Concatenable(iDims, dim) && dim <= |iDims| && t < |iDims| && d <= dim
    ensures OuterSizeAsWritten(iDims, d) == Some(Product(iDims[t][..d]))
  {
    if d > 0 {
      var j := d - 1;
      AsWrittenPrefix(iDims, dim, t, j);
      assert iDims[j][j] == iDims[0][j] == iDims[t][j];
      assert iDims[t][..d][..j] == iDims[t][..j];
      ProductInit(iDims[t][..d]);
    }
  }

  /** While the axis is at most the number of inputs, the shadowed loop agrees
      with the intended one, because all inputs share the dims before the axis. */
  lemma OuterSizeAsWrittenAgrees(iDims: seq<seq<nat>>, dim: nat, t: nat)
    requires Concatenable(iDims, dim) && dim <= |iDims| && t < |iDims|
    ensures OuterSizeAsWritten(iDims, dim) == Some(Product(iDims[t][..dim]))
  {
    AsWrittenPrefix(iDims, dim, t, dim);
  }

  /** Two inputs of shape (2,2,2,1) concatenated on axis 3: the shadowed loop
      reads the dims of a third input, which does not exist. */
  lemma OuterSizeAsWrittenReadsPast()
    ensures Concatenable([[2, 2, 2, 1], [2, 2, 2, 1]], 3)
    ensures OuterSizeAsWritten([[2, 2, 2, 1], [2, 2, 2, 1]], 3) == None
  {
    var iDims: seq<seq<nat>> := [[2, 2, 2, 1], [2, 2, 2, 1]];
    assert OuterSizeAsWritten(iDims, 2) == Some(4);
  }

  // ---------------------------------------------------------------------------
  // Where every input lands
  // ---------------------------------------------------------------------------

  /** Elements per step of the axis: the product of the dims after it. */
  function BlockInner(iDims: seq<seq<nat>>, dim: nat): nat
    requires Concatenable(iDims, dim)
  {
    Product(iDims[0][dim + 1..])
  }

  /** Number of output blocks: the product of the dims before the axis. */
  function OuterCount(iDims: seq<seq<nat>>, dim: nat): nat
    requires Concatenable(iDims, dim)
  {
    Product(iDims[0][..dim])
  }

  /** Elements per output block: the concatenated extent times the inner elements. */
  function BlockSize(iDims: seq<seq<nat>>, dim: nat): nat
    requires Concatenable(iDims, dim)
  {
    AxisSum(iDims, dim) * BlockInner(iDims, dim)
  }

  /** Elements per block of input `t`: the product of its dims from the axis on. */
  function Local(iDims: seq<seq<nat>>, dim: nat, t: nat): nat
    requires Concatenable(iDims, dim) && t < |iDims|
  {
    Product(iDims[t][dim..])
  }

  /** Where the slab of input `t` starts inside each output block. */
  function SlabStart(iDims: seq<seq<nat>>, dim: nat, t: nat): nat
    requires Concatenable(iDims, dim) && t <= |iDims|
  {
    BlockInner(iDims, dim) * AxisSum(iDims[..t], dim)
  }

  /** The output offset element `n` of block `o` of input `t` is copied to. */
  function Slot(iDims: seq<seq<nat>>, dim: nat, t: nat, o: nat, n: nat): nat
    requires Concatenable(iDims, dim) && t < |iDims|
  {
    OutSlot(o, n, BlockSize(iDims, dim), SlabStart(iDims, dim, t))
  }

  /** The input offset it is copied from. */
  function Source(iDims: seq<seq<nat>>, dim: nat, t: nat, o: nat, n: nat): nat
    requires Concatenable(iDims, dim) && t < |iDims|
  {
    InSlot(o, n, Local(iDims, dim, t))
  }

  /** The concatenated shape splits into the blocks before, the axis, and the inner elements. */
  lemma ShapeParts(iDims: seq<seq<nat>>, dim: nat)
    requires Concatenable(iDims, dim)
    ensures var outDim := ConcatShape(iDims, dim);
      Product(outDim[dim + 1..]) == BlockInner(iDims, dim) && outDim[dim] == AxisSum(iDims, dim) &&
      Product(outDim[..dim]) == OuterCount(iDims, dim) &&
      Product(outDim) == OuterCount(iDims, dim) * BlockSize(iDims, dim)
  {
    var outDim := ConcatShape(iDims, dim);
    assert outDim[dim + 1..] == iDims[0][dim + 1..] && outDim[..dim] == iDims[0][..dim];
    ProductSplit(outDim, dim);
    assert outDim[dim..][1..] == outDim[dim + 1..];
  }

  /** Every input has the same blocks before the axis and the same inner elements. */
  lemma InputParts(iDims: seq<seq<nat>>, dim: nat, t: nat)
    requires Concatenable(iDims, dim) && t < |iDims|
    ensures Product(iDims[t][..dim]) == OuterCount(iDims, dim)
    ensures Local(iDims, dim, t) == iDims[t][dim] * BlockInner(iDims, dim)
    ensures Product(iDims[t]) == OuterCount(iDims, dim) * Local(iDims, dim, t)
  {
    var s := iDims[t];
    assert s[..dim] == iDims[0][..dim] && s[dim + 1..] == iDims[0][dim + 1..];
    assert s[dim..][1..] == s[dim + 1..];
    ProductSplit(s, dim);
  }

  lemma AxisSumStep(iDims: seq<seq<nat>>, dim: nat, t: nat)
    requires Concatenable(iDims, dim) && t < |iDims|
    ensures AxisSum(iDims[..t + 1], dim) == AxisSum(iDims[..t], dim) + iDims[t][dim]
  {
    assert iDims[..t + 1][..t] == iDims[..t];
  }

  lemma {:induction false} AxisSumMono(iDims: seq<seq<nat>>, dim: nat, t: nat, u: nat)
    requires Concatenable(iDims, dim) && t <= u <= |iDims|
    ensures AxisSum(iDims[..t], dim) <= AxisSum(iDims[..u], dim)
    decreases u - t
  {
    if t < u {
      AxisSumStep(iDims, dim, t);
      AxisSumMono(iDims, dim, t + 1, u);
    }
  }

  /** The slab of input `t` ends where the slab of input `t + 1` starts. */
  lemma SlabEnd(iDims: seq<seq<nat>>, dim: nat, t: nat)
    requires Concatenable(iDims, dim) && t < |iDims|
    ensures SlabStart(iDims, dim, t) + Local(iDims, dim, t) == SlabStart(iDims, dim, t + 1)
  {
    InputParts(iDims, dim, t);
    AxisSumStep(iDims, dim, t);
    MulAdd(BlockInner(iDims, dim), AxisSum(iDims[..t], dim), iDims[t][dim]);
  }

  /** Slabs come in input order: a slab ends before any later one starts, and the last one ends with the block. */
  lemma SlabOrder(iDims: seq<seq<nat>>, dim: nat, t: nat, u: nat)
    requires Concatenable(iDims, dim) && t < u <= |iDims|
    ensures SlabStart(iDims, dim, t) + Local(iDims, dim, t) <= SlabStart(iDims, dim, u)
    ensures SlabStart(iDims, dim, u) <= BlockSize(iDims, dim)
  {
    SlabEnd(iDims, dim, t);
    AxisSumMono(iDims, dim, t + 1, u);
    MulMono(BlockInner(iDims, dim), AxisSum(iDims[..t + 1], dim), AxisSum(iDims[..u], dim));
    AxisSumMono(iDims, dim, u, |iDims|);
    assert iDims[..|iDims|] == iDims;
    MulMono(BlockInner(iDims, dim), AxisSum(iDims[..u], dim), AxisSum(iDims, dim));
  }

  /** An element of an earlier input's slab lies outside a later input's slab. */
  lemma EarlierOutside(iDims: seq<seq<nat>>, dim: nat, t: nat, u: nat, o: nat, n: nat)
    requires Concatenable(iDims, dim) && t < u < |iDims|
    requires o < OuterCount(iDims, dim) && n < Local(iDims, dim, t)
    ensures !InSlab(Slot(iDims, dim, t, o, n), OuterCount(iDims, dim), Local(iDims, dim, u),
                    BlockSize(iDims, dim), SlabStart(iDims, dim, u))
  {
    SlabOrder(iDims, dim, t, u);
    SlabOrder(iDims, dim, t, t + 1);
    SlotInSlab(o, n, OuterCount(iDims, dim), Local(iDims, dim, t), BlockSize(iDims, dim), SlabStart(iDims, dim, t));
  }

  /** doCompute's index logic: element `n` of block `o` of input `t` is
      written to its slot of the output. */
  method Compute<T>(inputs: seq<seq<T>>, iDims: seq<seq<nat>>, dim: nat, outDim: seq<nat>, out: array<T>)
    requires |inputs| == |iDims| && Concatenable(iDims, dim) && outDim == ConcatShape(iDims, dim)
    requires forall t :: 0 <= t < |inputs| ==> |inputs[t]| == Product(iDims[t])
    requires out.Length == Product(outDim)
    modifies out
    ensures forall t: nat, o: nat, n: nat ::
      t < |inputs| && o < OuterCount(iDims, dim) && n < Local(iDims, dim, t) ==>
        Slot(iDims, dim, t, o, n) < out.Length && Source(iDims, dim, t, o, n) < |inputs[t]| &&
        out[Slot(iDims, dim, t, o, n)] == inputs[t][Source(iDims, dim, t, o, n)]
  {
    ShapeParts(iDims, dim);
    var blockOffsetInner := BlockOffsetInner(outDim, dim);
    var blockOffset := outDim[dim] * blockOffsetInner;
    assert blockOffset == BlockSize(iDims, dim);
    for i := 0 to |inputs|
      invariant forall t: nat, o: nat, n: nat ::
        t < i && o < OuterCount(iDims, dim) && n < Local(iDims, dim, t) ==>
          Slot(iDims, dim, t, o, n) < out.Length && Source(iDims, dim, t, o, n) < |inputs[t]| &&
          out[Slot(iDims, dim, t, o, n)] == inputs[t][Source(iDims, dim, t, o, n)]
    {
      var iDim := iDims[i];
      var dimOffset := DimOffset(iDims, dim, i);
      var localBlockOffset := LocalBlockOffset(iDim, dim);
      var innerOffset := blockOffsetInner * dimOffset;
      var outerSize := OuterSize(iDim, dim);
      var innerSize := localBlockOffset;
      InputParts(iDims, dim, i);
      SlabOrder(iDims, dim, i, i + 1);
      SlabEnd(iDims, dim, i);
      CopyBlock(inputs[i], out, outerSize, innerSize, blockOffset, innerOffset);
      forall t: nat, o: nat, n: nat | t < i && o < OuterCount(iDims, dim) && n < Local(iDims, dim, t)
        ensures !InSlab(Slot(iDims, dim, t, o, n), outerSize, innerSize, blockOffset, innerOffset)
      {
        EarlierOutside(iDims, dim, t, i, o, n);
      }
    }
  }

  // ---------------------------------------------------------------------------
  // The slots tile the output
  // ---------------------------------------------------------------------------

  lemma SlabsApart(iDims: seq<seq<nat>>, dim: nat, t: nat, u: nat)
    requires Concatenable(iDims, dim) && t < |iDims| && u < |iDims|
    ensures t < u ==> SlabStart(iDims, dim, t) + Local(iDims, dim, t) <= SlabStart(iDims, dim, u)
  {
    if t < u {
      SlabOrder(iDims, dim, t, u);
    }
  }

  /** Inputs land in disjoint parts of the output: no two elements share a slot. */
  lemma SlotsDisjoint(iDims: seq<seq<nat>>, dim: nat, t1: nat, o1: nat, n1: nat, t2: nat, o2: nat, n2: nat)
    requires Concatenable(iDims, dim) && t1 < |iDims| && t2 < |iDims|
    requires o1 < OuterCount(iDims, dim) && n1 < Local(iDims, dim, t1)
    requires o2 < OuterCount(iDims, dim) && n2 < Local(iDims, dim, t2)
    requires Slot(iDims, dim, t1, o1, n1) == Slot(iDims, dim, t2, o2, n2)
    ensures t1 == t2 && o1 == o2 && n1 == n2
  {
    var outer, b := OuterCount(iDims, dim), BlockSize(iDims, dim);
    SlabOrder(iDims, dim, t1, t1 + 1);
    SlabOrder(iDims, dim, t2, t2 + 1);
    SlotInSlab(o1, n1, outer, Local(iDims, dim, t1), b, SlabStart(iDims, dim, t1));
    SlotInSlab(o2, n2, outer, Local(iDims, dim, t2), b, SlabStart(iDims, dim, t2));
    SlabsApart(iDims, dim, t1, t2);
    SlabsApart(iDims, dim, t2, t1);
  }

  lemma FactorPositive(k: nat, a: nat, b: nat)
    requires k < a * b
    ensures a > 0 && b > 0
  {
  }

  lemma DivSplit(k: nat, b: nat)
    requires b > 0
    ensures k == (k / b) * b + k % b && k % b < b
  {
  }

  /** The slab a place in an output block falls into. */
  lemma {:induction false} FindSlab(iDims: seq<seq<nat>>, dim: nat, x: nat, u: nat) returns (t: nat)
    requires Concatenable(iDims, dim) && u <= |iDims| && x < SlabStart(iDims, dim, u)
    ensures t < u && SlabStart(iDims, dim, t) <= x < SlabStart(iDims, dim, t + 1)
  {
    assert u > 0 by {
      assert iDims[..0] == [];
    }
    if SlabStart(iDims, dim, u - 1) <= x {
      t := u - 1;
    } else {
      t := FindSlab(iDims, dim, x, u - 1);
    }
  }

  /** Every output offset is the slot of some element of some input. */
  lemma SlotsCover(iDims: seq<seq<nat>>, dim: nat, k: nat) returns (t: nat, o: nat, n: nat)
    requires Concatenable(iDims, dim) && k < Product(ConcatShape(iDims, dim))
    ensures t < |iDims| && o < OuterCount(iDims, dim) && n < Local(iDims, dim, t)
    ensures Slot(iDims, dim, t, o, n) == k
  {
    ShapeParts(iDims, dim);
    var outer, b := OuterCount(iDims, dim), BlockSize(iDims, dim);
    FactorPositive(k, outer, b);
    o := k / b;
    DivBelow(k, b, outer);
    var x := k % b;
    DivSplit(k, b);
    assert iDims[..|iDims|] == iDims;
    t := FindSlab(iDims, dim, x, |iDims|);
    SlabEnd(iDims, dim, t);
    n := x - SlabStart(iDims, dim, t);
  }

  /** Concatenating an r x a and an r x b matrix on axis 1: output row `i` is
      row `i` of the first followed by row `i` of the second. */
  lemma Concat2D(r: nat, a: nat, b: nat, i: nat, j: nat)
    requires i < r
    ensures Concatenable([[r, a], [r, b]], 1)
    ensures OuterCount([[r, a], [r, b]], 1) == r
    ensures Local([[r, a], [r, b]], 1, 0) == a && Local([[r, a], [r, b]], 1, 1) == b
    ensures Slot([[r, a], [r, b]], 1, 0, i, j) == i * (a + b) + j
    ensures Source([[r, a], [r, b]], 1, 0, i, j) == i * a + j
    ensures Slot([[r, a], [r, b]], 1, 1, i, j) == i * (a + b) + a + j
    ensures Source([[r, a], [r, b]], 1, 1, i, j) == i * b + j
  {
    var iDims: seq<seq<nat>> := [[r, a], [r, b]];
    assert iDims[0][2..] == [] && iDims[0][..1] == [r] && iDims[0][1..] == [a] && iDims[1][1..] == [b];
    assert Product([r]) == r && Product([a]) == a && Product([b]) == b;
    assert iDims[..0] == [] && iDims[..1] == [[r, a]] && iDims[..1][..0] == [];
    assert AxisSum(iDims[..1], 1) == a;
    assert AxisSum(iDims, 1) == a + b;
    assert AxisSum(iDims[..0], 1) == 0;
    assert BlockInner(iDims, 1) == 1;
    assert BlockSize(iDims, 1) == a + b;
    assert SlabStart(iDims, 1, 0) == 0;
    assert SlabStart(iDims, 1, 1) == a;
  }
}
