/** The index logic of the naive CPU transpose kernel: the output dims, the
    row-major strides of both sides, and the element copy that reads each
    output offset from the input offset of the same element. */
module TransposeKernel {
  import opened Common
  import opened OperatorUtils
  import opened Permutations

  lemma ModBelow(x: nat, d: nat)
    requires x < d
    ensures x % d == x
  {
  }

  lemma {:induction false} ProductNonZero(s: seq<nat>)
    requires Product(s) > 0
    ensures Positive(s)
  {
    if |s| > 0 {
      ProductNonZero(s[1..]);
      forall d | 0 <= d < |s| ensures s[d] > 0 {
        if d > 0 { assert s[d] == s[1..][d - 1]; }
      }
    }
  }

  lemma DigitsZero(s: seq<nat>)
    requires Positive(s)
    ensures Digits(0, s) == seq(|s|, _ => 0)
  {
    if |s| > 0 {
      var k := |s| - 1;
      DigitsZero(s[..k]);
    }
  }

  /** idx2Pos: peels remainders off the flat index from the innermost dim
      while any of it is left; the dims it does not reach stay 0. The loop
      would run past the outermost dim on an index beyond the element count,
      so the caller passes one below it. */
  method Idx2Pos(shape: seq<nat>, idx: nat) returns (pos: seq<nat>)
    requires Positive(shape) && idx < Product(shape)
    ensures pos == Digits(idx, shape)
  {
    pos := seq(|shape|, _ => 0);
    var rest: nat := idx;
    var m := |shape|;
    assert shape[..m] == shape && pos[m..] == [];
    while rest > 0
      invariant m <= |shape| && Idx2PosInv(idx, shape, pos, rest, m)
      decreases m
    {
      Idx2PosLeft(idx, shape, pos, rest, m);
      var k := m - 1;
      var d := shape[k];
      var digit, quot := rest % d, rest / d;
      Idx2PosStep(idx, shape, pos, rest, m, digit, quot);
      pos := pos[k := digit];
      rest := quot;
      m := k;
    }
    Idx2PosDone(idx, shape, pos, m);
  }

  /** What idx2Pos keeps: `rest` is what is left of the index for the first
      `m` dims, whose positions still hold 0, and the positions from `m` on
      hold the digits already peeled off. */
  predicate Idx2PosInv(idx: nat, shape: seq<nat>, pos: seq<nat>, rest: nat, m: nat)
  {
    Positive(shape) && m <= |shape| == |pos| && rest < Product(shape[..m]) &&
    (forall j :: 0 <= j < m ==> pos[j] == 0) &&
    Digits(idx, shape) == Digits(rest, shape[..m]) + pos[m..]
  }

  /** While some of the index is left, some dim is left to peel it off. */
  lemma Idx2PosLeft(idx: nat, shape: seq<nat>, pos: seq<nat>, rest: nat, m: nat)
    requires Idx2PosInv(idx, shape, pos, rest, m) && rest > 0
    ensures 0 < m <= |shape| == |pos| && Positive(shape)
  {
    assert Product(shape[..m]) > 1;
  }

  lemma SuffixStep(pos: seq<nat>, k: nat, x: nat, front: seq<nat>)
    requires k < |pos|
    ensures (front + [x]) + pos[k + 1..] == front + pos[k := x][k..]
  {
    assert pos[k := x][k..] == [x] + pos[k + 1..];
  }

  lemma Idx2PosStep(idx: nat, shape: seq<nat>, pos: seq<nat>, rest: nat, m: nat, digit: int, quot: int)
    requires Idx2PosInv(idx, shape, pos, rest, m) && 0 < m
    requires digit == rest % shape[m - 1] && quot == rest / shape[m - 1]
    ensures 0 <= digit && 0 <= quot
    ensures Idx2PosInv(idx, shape, pos[m - 1 := digit], quot, m - 1)
  {
    DigitsPrefixStep(rest, shape, m);
    SuffixStep(pos, m - 1, digit, Digits(quot, shape[..m - 1]));
  }

  /** When nothing is left of the index, the positions hold its digits. */
  lemma Idx2PosDone(idx: nat, shape: seq<nat>, pos: seq<nat>, m: nat)
    requires Idx2PosInv(idx, shape, pos, 0, m)
    ensures pos == Digits(idx, shape)
  {
    DigitsZero(shape[..m]);
    assert pos[..m] == Digits(0, shape[..m]);
    assert pos == pos[..m] + pos[m..];
  }

  /** One step of idx2Pos: the innermost remaining dim's digit is the
      remainder, and the quotient fits the dims outside it. */
  lemma DigitsPrefixStep(rest: nat, shape: seq<nat>, m: nat)
    requires Positive(shape) && 0 < m <= |shape| && rest < Product(shape[..m])
    ensures Digits(rest, shape[..m]) == Digits(rest / shape[m - 1], shape[..m - 1]) + [rest % shape[m - 1]]
    ensures 0 <= rest % shape[m - 1] && 0 <= rest / shape[m - 1] < Product(shape[..m - 1])
  {
    var k := m - 1;
    assert shape[..m][..k] == shape[..k];
    ProductInit(shape[..m]);
    DivBelow(rest, shape[k], Product(shape[..k]));
  }

  /** Output dim `i` is input dim `perm[i]`. */
  method OutDims(inDim: seq<nat>, perm: seq<int>) returns (outDim: seq<nat>)
    requires |perm| == |inDim| && Indices(perm, |inDim|)
    ensures outDim == Permute(inDim, perm)
  {
    outDim := seq(|inDim|, _ => 0);
    for i := 0 to |inDim|
      invariant |outDim| == |inDim|
      invariant forall j :: 0 <= j < i ==> outDim[j] == inDim[perm[j]]
    {
      outDim := outDim[i := inDim[perm[i]]];
    }
  }

  /** The stride loops: all strides start at 1 and are filled from the second
      innermost outwards, each the next stride times the next dim. */
  method Strides(dims: seq<nat>) returns (stride: seq<nat>)
    ensures stride == RowMajorStrides(dims)
  {
    var n := |dims|;
    stride := seq(n, _ => 1);
    if n > 0 {
      StridesLast(dims);
    }
    var i := n - 2;
    while i >= 0
      invariant -2 <= i <= n - 2 && (i >= -1 || n == 0) && |stride| == n
      invariant forall j :: i < j < n && 0 <= j ==> stride[j] == RowMajorStrides(dims)[j]
      decreases i + 2
    {
      StridesStep(dims, i);
      stride := stride[i := stride[i + 1] * dims[i + 1]];
      i := i - 1;
    }
  }

  /** The input offset the inner copy loop accumulates for the output offset
      `tmp`: each output stride in turn divides off a coordinate and leaves the
      remainder, and the coordinate is weighted by the matching entry of `weight`. */
  function InIndex(tmp: nat, outStride: seq<nat>, weight: seq<nat>): nat
    requires |outStride| == |weight| && Positive(outStride)
    decreases |outStride|
  {
    if |outStride| == 0 then 0
    else
      assert Positive(outStride[1..]);
      assert (tmp / outStride[0]) * weight[0] >= 0;
      (tmp / outStride[0]) * weight[0] + InIndex(tmp % outStride[0], outStride[1..], weight[1..])
  }

  /** The inner copy loop: output stride `i` pairs with input stride `perm[i]`. */
  method InputIndex(outIdx: nat, outStride: seq<nat>, inStride: seq<nat>, perm: seq<int>) returns (inIdx: nat)
    requires |outStride| == |perm| && Indices(perm, |inStride|) && Positive(outStride)
    ensures inIdx == InIndex(outIdx, outStride, Permute(inStride, perm))
  {
    ghost var w := Permute(inStride, perm);
    inIdx := 0;
    var tmp := outIdx;
    for i := 0 to |outStride|
      invariant Positive(outStride[i..])
      invariant inIdx + InIndex(tmp, outStride[i..], w[i..]) == InIndex(outIdx, outStride, w)
    {
      assert outStride[i..][1..] == outStride[i + 1..] && w[i..][1..] == w[i + 1..];
      assert Positive(outStride[i + 1..]);
      var dim := perm[i];
      var coord := tmp / outStride[i];
      tmp := tmp % outStride[i];
      inIdx := inIdx + coord * inStride[dim];
    }
  }

  // ---------------------------------------------------------------------------
  // What the copy reads
  // ---------------------------------------------------------------------------

  function Terms(c: seq<nat>, w: seq<nat>): seq<nat>
    requires |c| == |w|
  {
    seq(|c|, i requires 0 <= i < |c| => c[i] * w[i])
  }

  /** Coordinates weighted by strides. */
  function Dot(c: seq<nat>, w: seq<nat>): nat
    requires |c| == |w|
  {
    Sum(Terms(c, w))
  }

  /** The input coordinates an output coordinate vector comes from: input axis
      `perm[i]` carries output coordinate `i`. */
  function InputCoords(c: seq<nat>, perm: seq<int>): (r: seq<nat>)
    requires IsPermutation(perm, |c|)
    ensures |r| == |c|
    ensures forall i :: 0 <= i < |c| ==> r[perm[i]] == c[i]
  {
    Permute(c, Inverse(perm, |c|))
  }

  /** The offset the copy reads for output offset `t`: the output strides
      divide `t` and the permuted input strides weight the quotients. It lies
      inside the input. */
  function SourceOffset(t: nat, inDim: seq<nat>, perm: seq<int>): (r: nat)
    requires IsPermutation(perm, |inDim|) && t < Product(inDim)
    ensures r < Product(inDim)
  {
    ProductNonZero(inDim);
    CopyReadMeaning(t, inDim, perm);
    InIndex(t, RowMajorStrides(Permute(inDim, perm)), Permute(RowMajorStrides(inDim), perm))
  }

  lemma PermutePositive(s: seq<nat>, perm: seq<int>)
    requires Positive(s) && Indices(perm, |s|)
    ensures Positive(Permute(s, perm))
  {
  }

  lemma StridesPositive(s: seq<nat>)
    requires Positive(s)
    ensures Positive(RowMajorStrides(s))
  {
    forall i | 0 <= i < |s| ensures RowMajorStrides(s)[i] > 0 {
      ProductPositive(s[i + 1..]);
    }
  }

  /** The first stride is the product of the inner dims, and the other strides are the strides of the inner dims. */
  lemma StridesTail(s: seq<nat>)
    requires |s| > 0
    ensures RowMajorStrides(s)[0] == Product(s[1..])
    ensures RowMajorStrides(s)[1..] == RowMajorStrides(s[1..])
  {
    var st, tail := RowMajorStrides(s), RowMajorStrides(s[1..]);
    forall i | 0 <= i < |tail| ensures st[1..][i] == tail[i] {
      assert s[1..][i + 1..] == s[i + 2..];
    }
  }

  lemma Regroup(a: nat, p: nat, e: nat, d: nat, x: nat)
    ensures (a * p + e) * d + x == a * (p * d) + (e * d + x)
  {
  }

  /** A row-major offset split at the outermost dim. */
  lemma {:induction false} DelocateCons(c: seq<nat>, s: seq<nat>)
    requires |c| == |s| > 0 && Positive(s)
    ensures Delocate(c, s, RowMajorStrides(s))
         == (c[0] % s[0]) * Product(s[1..]) + Delocate(c[1..], s[1..], RowMajorStrides(s[1..]))
    decreases |s|
  {
    var k := |s| - 1;
    if k == 0 {
      assert s[1..] == [] && c[1..] == [];
      assert RowMajorStrides(s)[0] == 1;
    } else {
      var cf, sf, ct, st := c[..k], s[..k], c[1..], s[1..];
      var a, p, e := c[0] % s[0], Product(sf[1..]), Delocate(cf[1..], sf[1..], RowMajorStrides(sf[1..]));
      var d, x := s[k], c[k] % s[k];
      assert Delocate(c, s, RowMajorStrides(s)) == Delocate(cf, sf, RowMajorStrides(sf)) * d + x by {
        DelocateInit(c, s);
      }
      assert Delocate(cf, sf, RowMajorStrides(sf)) == a * p + e by {
        assert cf[0] == c[0] && sf[0] == s[0];
        DelocateCons(cf, sf);
      }
      assert Delocate(ct, st, RowMajorStrides(st)) == e * d + x by {
        assert sf[1..] == st[..k - 1] && cf[1..] == ct[..k - 1];
        assert st[k - 1] == s[k] && ct[k - 1] == c[k];
        DelocateInit(ct, st);
      }
      assert Product(st) == p * d by {
        assert sf[1..] == st[..k - 1] && st[k - 1] == s[k];
        ProductInit(st);
      }
      Regroup(a, p, e, d, x);
    }
  }

  lemma DotCons(c: seq<nat>, w: seq<nat>)
    requires |c| == |w| > 0
    ensures Dot(c, w) == c[0] * w[0] + Dot(c[1..], w[1..])
  {
    assert Terms(c, w)[1..] == Terms(c[1..], w[1..]);
  }

  /** On the offset of a coordinate vector, the copy loop divides off exactly those coordinates. */
  lemma {:induction false} InIndexDot(c: seq<nat>, s: seq<nat>, w: seq<nat>)
    requires Positive(s) && InRange(c, s) && |w| == |s|
    ensures Positive(RowMajorStrides(s))
    ensures InIndex(Delocate(c, s, RowMajorStrides(s)), RowMajorStrides(s), w) == Dot(c, w)
    decreases |s|
  {
    StridesPositive(s);
    if |s| > 0 {
      var t := Delocate(c, s, RowMajorStrides(s));
      var p := Product(s[1..]);
      var rest := Delocate(c[1..], s[1..], RowMajorStrides(s[1..]));
      DelocateCons(c, s);
      ModBelow(c[0], s[0]);
      DelocateBound(c[1..], s[1..]);
      DivMod(t, p, c[0], rest);
      StridesTail(s);
      InIndexDot(c[1..], s[1..], w[1..]);
      DotCons(c, w);
    }
  }

  lemma {:induction false} DelocateDot(c: seq<nat>, s: seq<nat>, st: seq<nat>)
    requires Positive(s) && InRange(c, s) && |st| == |s|
    ensures Delocate(c, s, st) == Dot(c, st)
    decreases |s|
  {
    if |s| > 0 {
      var k := |s| - 1;
      DelocateDot(c[..k], s[..k], st[..k]);
      assert Terms(c, st) == Terms(c[..k], st[..k]) + [c[k] * st[k]];
      SumConcat(Terms(c[..k], st[..k]), [c[k] * st[k]]);
      ModBelow(c[k], s[k]);
    }
  }

  /** Weighting output coordinates by the permuted input strides is weighting
      the input coordinates by the input strides. */
  lemma DotPermute(c: seq<nat>, st: seq<nat>, perm: seq<int>)
    requires IsPermutation(perm, |c|) && |st| == |c|
    ensures Dot(c, Permute(st, perm)) == Dot(InputCoords(c, perm), st)
  {
    var c' := InputCoords(c, perm);
    var terms := Terms(c', st);
    assert Terms(c, Permute(st, perm)) == Permute(terms, perm);
    SumPermute(terms, perm);
  }

  /** The input coordinates of an output coordinate vector inside the output dims lie inside the input dims. */
  lemma InputCoordsInRange(c: seq<nat>, inDim: seq<nat>, perm: seq<int>)
    requires IsPermutation(perm, |inDim|) && InRange(c, Permute(inDim, perm))
    ensures InRange(InputCoords(c, perm), inDim)
  {
    var q := Inverse(perm, |inDim|);
    var c' := InputCoords(c, perm);
    forall j | 0 <= j < |inDim| ensures c'[j] < inDim[j] {
      assert c'[perm[q[j]]] == c[q[j]];
    }
  }

  /** The offset read for output offset `t` is the input's row-major offset of
      the input coordinates that the output coordinates of `t` come from; in
      particular it lies inside the input. */
  lemma CopyReadMeaning(t: nat, inDim: seq<nat>, perm: seq<int>)
    requires IsPermutation(perm, |inDim|) && Positive(inDim) && t < Product(inDim)
    ensures Positive(Permute(inDim, perm)) && Positive(RowMajorStrides(Permute(inDim, perm)))
    ensures Product(Permute(inDim, perm)) == Product(inDim)
    ensures InIndex(t, RowMajorStrides(Permute(inDim, perm)), Permute(RowMajorStrides(inDim), perm))
         == Delocate(InputCoords(Digits(t, Permute(inDim, perm)), perm), inDim, RowMajorStrides(inDim))
    ensures Delocate(InputCoords(Digits(t, Permute(inDim, perm)), perm), inDim, RowMajorStrides(inDim))
         < Product(inDim)
  {
    var outDim := Permute(inDim, perm);
    ProductPermute(inDim, perm);
    StridesPositive(outDim);
    var c := Digits(t, outDim);
    var c' := InputCoords(c, perm);
    var inStride := RowMajorStrides(inDim);
    LocateDelocate(t, outDim);
    InIndexDot(c, outDim, Permute(inStride, perm));
    DotPermute(c, inStride, perm);
    InputCoordsInRange(c, inDim, perm);
    DelocateDot(c', inDim, inStride);
    DelocateBound(c', inDim);
  }

  /** Output coordinates are determined by the input coordinates they come from. */
  lemma InputCoordsInjective(c1: seq<nat>, c2: seq<nat>, perm: seq<int>)
    requires |c1| == |c2| && IsPermutation(perm, |c1|)
    requires InputCoords(c1, perm) == InputCoords(c2, perm)
    ensures c1 == c2
  {
    var d1, d2 := InputCoords(c1, perm), InputCoords(c2, perm);
    forall i | 0 <= i < |c1| ensures c1[i] == c2[i] {
      assert d1[perm[i]] == c1[i] && d2[perm[i]] == c2[i];
    }
  }

  /** Different output offsets read different input offsets. */
  lemma SourceOffsetInjective(t1: nat, t2: nat, inDim: seq<nat>, perm: seq<int>)
    requires IsPermutation(perm, |inDim|) && t1 < Product(inDim) && t2 < Product(inDim)
    requires SourceOffset(t1, inDim, perm) == SourceOffset(t2, inDim, perm)
    ensures t1 == t2
  {
    ProductNonZero(inDim);
    CopyReadMeaning(t1, inDim, perm);
    CopyReadMeaning(t2, inDim, perm);
    var outDim := Permute(inDim, perm);
    var c1, c2 := Digits(t1, outDim), Digits(t2, outDim);
    var d1, d2 := InputCoords(c1, perm), InputCoords(c2, perm);
    var st := RowMajorStrides(inDim);
    assert Delocate(d1, inDim, st) == Delocate(d2, inDim, st);
    InputCoordsInRange(c1, inDim, perm);
    InputCoordsInRange(c2, inDim, perm);
    DelocateLocate(d1, inDim);
    DelocateLocate(d2, inDim);
    InputCoordsInjective(c1, c2, perm);
    LocateDelocate(t1, outDim);
    LocateDelocate(t2, outDim);
  }

  /** Reading input coordinates through the permutation and mapping them back gives them again. */
  lemma InputCoordsOfPermute(d: seq<nat>, perm: seq<int>)
    requires IsPermutation(perm, |d|)
    ensures InputCoords(Permute(d, perm), perm) == d
  {
    var c := Permute(d, perm);
    var d' := InputCoords(c, perm);
    var q := Inverse(perm, |d|);
    forall j | 0 <= j < |d| ensures d'[j] == d[j] {
      assert d'[perm[q[j]]] == c[q[j]] == d[perm[q[j]]];
    }
  }

  lemma PermuteInRange(d: seq<nat>, s: seq<nat>, perm: seq<int>)
    requires InRange(d, s) && IsPermutation(perm, |s|)
    ensures InRange(Permute(d, perm), Permute(s, perm))
  {
  }

  /** Every input offset is read for some output offset. */
  lemma SourceOffsetOnto(u: nat, inDim: seq<nat>, perm: seq<int>) returns (t: nat)
    requires IsPermutation(perm, |inDim|) && u < Product(inDim)
    ensures t < Product(inDim) && SourceOffset(t, inDim, perm) == u
  {
    ProductNonZero(inDim);
    var outDim := Permute(inDim, perm);
    ProductPermute(inDim, perm);
    PermutePositive(inDim, perm);
    var d := Digits(u, inDim);
    var c := Permute(d, perm);
    PermuteInRange(d, inDim, perm);
    t := Delocate(c, outDim, RowMajorStrides(outDim));
    DelocateBound(c, outDim);
    DelocateLocate(c, outDim);
    CopyReadMeaning(t, inDim, perm);
    InputCoordsOfPermute(d, perm);
    LocateDelocate(u, inDim);
  }

  /** doCompute's index logic: every output offset below the element count is
      written, with the input element at its source offset. */
  method Compute<T>(input: seq<T>, inDim: seq<nat>, perm: seq<int>, out: array<T>)
    requires |input| == Product(inDim) && out.Length == |input|
    requires IsPermutation(perm, |inDim|)
    modifies out
    ensures forall t :: 0 <= t < out.Length ==> out[t] == input[SourceOffset(t, inDim, perm)]
  {
    var inSize := |input|;
    var outDim := OutDims(inDim, perm);
    var inStride := Strides(inDim);
    var outStride := Strides(outDim);
    if inSize > 0 {
      ProductNonZero(inDim);
      PermutePositive(inDim, perm);
      StridesPositive(outDim);
    }
    for outIdx := 0 to inSize
      invariant inSize > 0 ==> Positive(outStride)
      invariant forall t :: 0 <= t < outIdx ==> out[t] == input[SourceOffset(t, inDim, perm)]
    {
      var inIdx := InputIndex(outIdx, outStride, inStride, perm);
      assert inIdx == SourceOffset(outIdx, inDim, perm);
      out[outIdx] := input[inIdx];
    }
  }

  /** Transposing an r x s matrix: output element (j, i) is input element (i, j). */
  lemma Transpose2D(r: nat, s: nat, i: nat, j: nat)
    requires i < r && j < s
    ensures j * r + i < Product([r, s])
    ensures SourceOffset(j * r + i, [r, s], [1, 0]) == i * s + j
  {
    var inDim: seq<nat> := [r, s];
    assert Product(inDim) == r * s;
    assert j * r + i < r * s by {
      assert j * r + i < (j + 1) * r;
      assert (j + 1) * r <= s * r;
    }
    var outDim := Permute(inDim, [1, 0]);
    assert outDim == [s, r];
    assert outDim[1..] == [r] && outDim[2..] == [] && inDim[1..] == [s] && inDim[2..] == [];
    assert Product([r]) == r && Product([s]) == s;
    assert RowMajorStrides(outDim) == [r, 1];
    assert RowMajorStrides(inDim) == [s, 1];
    assert Permute(RowMajorStrides(inDim), [1, 0]) == [1, s];
    DivMod(j * r + i, r, j, i);
    assert InIndex(i, [1], [s]) == i * s;
  }
}
