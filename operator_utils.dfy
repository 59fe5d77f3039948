/** Shape utilities shared by the operators: multidirectional broadcasting,
    axis normalisation and row-major index encoding and decoding. */
module OperatorUtils {
  import opened Common

  // ---------------------------------------------------------------------------
  // Broadcasting (the multidirectional rule of the ONNX broadcasting document)
  // ---------------------------------------------------------------------------

  /** Dim `i` places from the right; a dim beyond the rank reads as 1. */
  function DimFromRight(s: seq<nat>, i: nat): nat
  {
    if i < |s| then s[|s| - 1 - i] else 1
  }

  /** Two aligned dims broadcast when they agree or one of them is 1. */
  predicate Compatible(x: nat, y: nat) { x == y || x == 1 || y == 1 }

  /** The broadcast of two aligned dims: the common value, or the other one when one side is 1. */
  function Combine(x: nat, y: nat): nat
  {
    if x == y then x else if x == 1 then y else x
  }

  predicate Broadcastable(a: seq<nat>, b: seq<nat>)
  {
    forall i: nat :: i < Max(|a|, |b|) ==> Compatible(DimFromRight(a, i), DimFromRight(b, i))
  }

  /** The broadcast shape: rank is the larger rank, and the dims are combined
      after right-aligning both shapes. */
  function BroadcastShape(a: seq<nat>, b: seq<nat>): seq<nat>
  {
    var n := Max(|a|, |b|);
    seq(n, k requires 0 <= k < n => Combine(DimFromRight(a, n - 1 - k), DimFromRight(b, n - 1 - k)))
  }

  /** The ONNX rule, read from the right: the result has the larger rank, and
      each dim is the other operand's dim where one side is 1 (or missing), and
      the common dim where both agree. */
  lemma BroadcastDims(a: seq<nat>, b: seq<nat>, i: nat)
    ensures |BroadcastShape(a, b)| == Max(|a|, |b|)
    ensures i < Max(|a|, |b|) ==>
      var r, x, y := BroadcastShape(a, b), DimFromRight(a, i), DimFromRight(b, i);
      (x == 1 ==> DimFromRight(r, i) == y) &&
      (y == 1 ==> DimFromRight(r, i) == x) &&
      (x == y ==> DimFromRight(r, i) == x)
  {
    var r, n := BroadcastShape(a, b), Max(|a|, |b|);
    if i < n {
      var k := n - 1 - i;
      assert |r| == n && n - 1 - k == i;
      assert DimFromRight(r, i) == r[k] == Combine(DimFromRight(a, i), DimFromRight(b, i));
    }
  }

  /** Every operand stretches to the broadcast shape: each of its dims either
      equals the result's dim or is 1. */
  lemma BroadcastStretches(a: seq<nat>, b: seq<nat>, i: nat)
    requires Broadcastable(a, b)
    requires i < Max(|a|, |b|)
    ensures DimFromRight(a, i) == DimFromRight(BroadcastShape(a, b), i) || DimFromRight(a, i) == 1
    ensures DimFromRight(b, i) == DimFromRight(BroadcastShape(a, b), i) || DimFromRight(b, i) == 1
  {
    assert Compatible(DimFromRight(a, i), DimFromRight(b, i));
    BroadcastDims(a, b, i);
  }

  /** Broadcasting does not depend on the order of the operands. */
  lemma BroadcastCommutes(a: seq<nat>, b: seq<nat>)
    ensures Broadcastable(a, b) <==> Broadcastable(b, a)
    ensures Broadcastable(a, b) ==> BroadcastShape(a, b) == BroadcastShape(b, a)
  {
    var n := Max(|a|, |b|);
    assert Max(|b|, |a|) == n;
    if Broadcastable(a, b) {
      forall i: nat | i < n ensures Compatible(DimFromRight(b, i), DimFromRight(a, i)) {
        assert Compatible(DimFromRight(a, i), DimFromRight(b, i));
      }
      var r, s := BroadcastShape(a, b), BroadcastShape(b, a);
      forall k | 0 <= k < n ensures r[k] == s[k] {
        var x, y := DimFromRight(a, n - 1 - k), DimFromRight(b, n - 1 - k);
        assert Compatible(x, y);
        assert r[k] == Combine(x, y) && s[k] == Combine(y, x);
      }
    }
  }

  /** (8,1,6,1) with (7,1,5) gives (8,7,6,5); (3,4) with (5) does not broadcast. */
  lemma BroadcastExamples()
    ensures Broadcastable([8, 1, 6, 1], [7, 1, 5])
    ensures BroadcastShape([8, 1, 6, 1], [7, 1, 5]) == [8, 7, 6, 5]
    ensures !Broadcastable([3, 4], [5])
  {
    var a: seq<nat>, b: seq<nat> := [8, 1, 6, 1], [7, 1, 5];
    forall i: nat | i < 4 ensures Compatible(DimFromRight(a, i), DimFromRight(b, i)) {
      assert i == 0 || i == 1 || i == 2 || i == 3;
    }
    var r := BroadcastShape(a, b);
    assert DimFromRight(a, 2) == 1 && DimFromRight(b, 2) == 7;
    assert DimFromRight(a, 1) == 6 && DimFromRight(b, 1) == 1;
    assert DimFromRight(a, 0) == 1 && DimFromRight(b, 0) == 5;
    assert Max(|a|, |b|) == 4 && |r| == 4;
    assert DimFromRight(a, 3) == 8 && DimFromRight(b, 3) == 1;
    assert r[0] == Combine(DimFromRight(a, 3), DimFromRight(b, 3));
    assert r[1] == Combine(DimFromRight(a, 2), DimFromRight(b, 2));
    assert r[2] == Combine(DimFromRight(a, 1), DimFromRight(b, 1));
    assert r[3] == Combine(DimFromRight(a, 0), DimFromRight(b, 0));
    assert r[0] == 8 && r[1] == 7 && r[2] == 6 && r[3] == 5;
    assert !Compatible(DimFromRight([3, 4], 0), DimFromRight([5], 0));
  }

  /** infer_broadcast: walks the aligned dims from the right and fails the
      assertion on the first incompatible pair. */
  method InferBroadcast(a: seq<nat>, b: seq<nat>) returns (r: Result<seq<nat>>)
    ensures r.Ok? <==> Broadcastable(a, b)
    ensures r.Ok? ==> r.value == BroadcastShape(a, b)
    ensures r.Err? ==> r.failure == AssertFailed
  {
    var rankMax := Max(|a|, |b|);
    var result: seq<nat> := seq(rankMax, _ => 0);
    var i := 0;
    while i < rankMax
      invariant 0 <= i <= rankMax && |result| == rankMax
      invariant forall j: nat :: j < i ==> Compatible(DimFromRight(a, j), DimFromRight(b, j))
      invariant forall k :: rankMax - i <= k < rankMax ==>
        result[k] == Combine(DimFromRight(a, rankMax - 1 - k), DimFromRight(b, rankMax - 1 - k))
    {
      var dimA := if i < |a| then a[|a| - 1 - i] else 1;
      var dimB := if i < |b| then b[|b| - 1 - i] else 1;
      assert dimA == DimFromRight(a, i) && dimB == DimFromRight(b, i);
      if dimA == dimB {
        result := result[rankMax - 1 - i := dimA];
      } else if dimA == 1 {
        result := result[rankMax - 1 - i := dimB];
      } else if dimB == 1 {
        result := result[rankMax - 1 - i := dimA];
      } else {
        return Err(AssertFailed);
      }
      i := i + 1;
    }
    return Ok(result);
  }

  // ---------------------------------------------------------------------------
  // Axis normalisation
  // ---------------------------------------------------------------------------

  /** get_real_axis: the caller must pass a rank of at least 1 and an axis in
      [-rank, rank); the result is the unique axis in [0, rank) congruent to it. */
  function RealAxis(axis: int, rank: int): (r: nat)
    requires rank >= 1
    requires -rank <= axis <= rank - 1
    ensures r < rank
    ensures r == axis || r == axis + rank
  {
    if axis < 0 then axis + rank else axis
  }

  // ---------------------------------------------------------------------------
  // Row-major index arithmetic
  // ---------------------------------------------------------------------------

  predicate Positive(shape: seq<nat>)
  {
    forall d :: 0 <= d < |shape| ==> shape[d] > 0
  }

  /** A coordinate vector lies inside the shape. */
  predicate InRange(idx: seq<nat>, shape: seq<nat>)
  {
    |idx| == |shape| && forall d :: 0 <= d < |idx| ==> idx[d] < shape[d]
  }

  /** The mixed-radix digits of `n` for the radices `shape`, least significant
      digit last; whatever exceeds the whole shape is discarded. */
  function Digits(n: nat, shape: seq<nat>): (r: seq<nat>)
    requires Positive(shape)
    ensures InRange(r, shape)
    decreases |shape|
  {
    if |shape| == 0 then []
    else
      var k := |shape| - 1;
      Digits(n / shape[k], shape[..k]) + [n % shape[k]]
  }

  /** Row-major strides: each stride is the product of the dims after it. */
  function RowMajorStrides(shape: seq<nat>): (r: seq<nat>)
  {
    seq(|shape|, i requires 0 <= i < |shape| => Product(shape[i + 1..]))
  }

  /** The innermost stride is 1. */
  lemma StridesLast(shape: seq<nat>)
    requires |shape| > 0
    ensures RowMajorStrides(shape)[|shape| - 1] == 1
  {
    assert shape[|shape|..] == [];
  }

  /** Each stride is the next stride times the next dim. */
  lemma StridesStep(shape: seq<nat>, i: nat)
    requires i + 1 < |shape|
    ensures RowMajorStrides(shape)[i] == RowMajorStrides(shape)[i + 1] * shape[i + 1]
  {
    var st := RowMajorStrides(shape);
    var p, q := st[i], st[i + 1];
    assert p == Product(shape[i + 1..]);
    assert q == Product(shape[i + 2..]);
    assert shape[i + 1..][1..] == shape[i + 2..];
    assert p == shape[i + 1] * q;
  }

  /** The sum delocate_index computes: each coordinate reduced modulo its dim, times its stride. */
  function Delocate(idx: seq<nat>, shape: seq<nat>, stride: seq<nat>): nat
    requires |idx| == |shape| == |stride| && Positive(shape)
    decreases |idx|
  {
    if |idx| == 0 then 0
    else
      var k := |idx| - 1;
      Delocate(idx[..k], shape[..k], stride[..k]) + (idx[k] % shape[k]) * stride[k]
  }

  /** locate_index: divides the flat index down from the innermost dim, writing
      each remainder from the back of the result. */
  method LocateIndex(n: nat, shape: seq<nat>) returns (ans: seq<nat>)
    requires Positive(shape)
    ensures ans == Digits(n, shape)
  {
    ans := seq(|shape|, _ => 0);
    var q := n;
    var m := |shape|;
    assert shape[..m] == shape && ans[m..] == [];
    while m > 0
      invariant 0 <= m <= |shape| && |ans| == |shape|
      invariant Digits(n, shape) == Digits(q, shape[..m]) + ans[m..]
    {
      var d := shape[m - 1];
      assert shape[..m][..m - 1] == shape[..m - 1];
      assert Digits(q, shape[..m]) == Digits(q / d, shape[..m - 1]) + [q % d];
      var ans' := ans[m - 1 := q % d];
      assert ans'[m - 1..] == [q % d] + ans[m..];
      ans := ans';
      q := q / d;
      m := m - 1;
    }
    assert ans[0..] == ans;
  }

  /** delocate_index: the caller must pass coordinates, shape and strides of
      equal length; the flat offset is accumulated from the outermost dim. */
  method DelocateIndex(idx: seq<nat>, shape: seq<nat>, stride: seq<nat>) returns (ans: nat)
    requires |idx| == |shape| && |shape| == |stride|
    requires Positive(shape)
    ensures ans == Delocate(idx, shape, stride)
  {
    ans := 0;
    var i := 0;
    while i < |shape|
      invariant 0 <= i <= |shape|
      invariant ans == Delocate(idx[..i], shape[..i], stride[..i])
    {
      assert idx[..i + 1][..i] == idx[..i] && shape[..i + 1][..i] == shape[..i];
      assert stride[..i + 1][..i] == stride[..i];
      ans := ans + (idx[i] % shape[i]) * stride[i];
      i := i + 1;
    }
    assert idx[..i] == idx && shape[..i] == shape && stride[..i] == stride;
  }

  // ---------------------------------------------------------------------------
  // Round trips between flat indices and coordinates
  // ---------------------------------------------------------------------------

  lemma MulAtLeast(a: int, d: int)
    requires a >= 1 && d >= 0
    ensures a * d >= d
  {
  }

  lemma DivMod(n: nat, d: nat, q: nat, r: nat)
    requires d > 0 && r < d && n == q * d + r
    ensures n / d == q && n % d == r
  {
    var q', r' := n / d, n % d;
    assert n == q' * d + r';
    if q' > q {
      assert (q' - q) * d == r - r';
      MulAtLeast(q' - q, d);
    } else if q' < q {
      assert (q - q') * d == r' - r;
      MulAtLeast(q - q', d);
    }
  }

  lemma DivBelow(n: nat, d: nat, p: nat)
    requires d > 0 && n < p * d
    ensures n / d < p
  {
    var q := n / d;
    assert q * d <= n;
  }

  lemma ProductSnoc(s: seq<nat>, d: nat)
    ensures Product(s + [d]) == Product(s) * d
  {
    var t := s + [d];
    ProductSplit(t, |s|);
    assert t[..|s|] == s;
    assert t[|s|..] == [d];
    assert Product([d]) == d * Product([]);
  }

  /** Each stride of a shape with one more inner dim is the old stride times that dim. */
  lemma StridesSnoc(s: seq<nat>, d: nat)
    ensures RowMajorStrides(s + [d])[..|s|] == seq(|s|, i requires 0 <= i < |s| => RowMajorStrides(s)[i] * d)
    ensures RowMajorStrides(s + [d])[|s|] == 1
  {
    var t := s + [d];
    forall i | 0 <= i < |s| ensures RowMajorStrides(t)[i] == RowMajorStrides(s)[i] * d {
      assert t[i + 1..] == s[i + 1..] + [d];
      ProductSnoc(s[i + 1..], d);
    }
    assert t[|s| + 1..] == [];
  }

  /** Scaling every stride scales the offset. */
  lemma {:induction false} DelocateScale(idx: seq<nat>, shape: seq<nat>, stride: seq<nat>, base: seq<nat>, d: nat)
    requires |idx| == |shape| == |stride| == |base| && Positive(shape)
    requires forall i :: 0 <= i < |stride| ==> stride[i] == base[i] * d
    ensures Delocate(idx, shape, stride) == Delocate(idx, shape, base) * d
  {
    if |idx| > 0 {
      var k := |idx| - 1;
      DelocateScale(idx[..k], shape[..k], stride[..k], base[..k], d);
      assert (idx[k] % shape[k]) * stride[k] == (idx[k] % shape[k]) * base[k] * d;
    }
  }

  /** Peels the innermost dim off a row-major offset. */
  lemma DelocateSnoc(idx: seq<nat>, shape: seq<nat>, x: nat, d: nat)
    requires |idx| == |shape| && Positive(shape) && d > 0
    ensures Positive(shape + [d])
    ensures Delocate(idx + [x], shape + [d], RowMajorStrides(shape + [d]))
         == Delocate(idx, shape, RowMajorStrides(shape)) * d + x % d
  {
    var s, st := shape + [d], RowMajorStrides(shape + [d]);
    var k := |shape|;
    assert Positive(s);
    StridesSnoc(shape, d);
    assert (idx + [x])[..k] == idx && s[..k] == shape;
    DelocateScale(idx, shape, st[..k], RowMajorStrides(shape), d);
  }

  lemma Recompose(n: nat, d: nat)
    requires d > 0
    ensures (n / d) * d + (n % d) % d == n
  {
    assert (n % d) % d == n % d;
  }

  lemma BoundStep(p: nat, limit: nat, x: nat, d: nat)
    requires p < limit && x < d
    ensures p * d + x % d < limit * d
  {
    assert x % d == x;
    assert p * d + x < (p + 1) * d;
    assert (p + 1) * d <= limit * d;
  }

  /** `DelocateSnoc` for a shape split before its innermost dim. */
  lemma DelocateInit(idx: seq<nat>, shape: seq<nat>)
    requires |idx| == |shape| > 0 && Positive(shape)
    ensures var k := |shape| - 1;
      Delocate(idx, shape, RowMajorStrides(shape))
        == Delocate(idx[..k], shape[..k], RowMajorStrides(shape[..k])) * shape[k] + idx[k] % shape[k]
  {
    var k := |shape| - 1;
    assert shape == shape[..k] + [shape[k]] && idx == idx[..k] + [idx[k]];
    DelocateSnoc(idx[..k], shape[..k], idx[k], shape[k]);
  }

  lemma ProductInit(shape: seq<nat>)
    requires |shape| > 0
    ensures Product(shape) == Product(shape[..|shape| - 1]) * shape[|shape| - 1]
  {
    var k := |shape| - 1;
    assert shape == shape[..k] + [shape[k]];
    ProductSnoc(shape[..k], shape[k]);
  }

  /** delocate_index inverts locate_index on row-major strides:
      decoding a flat index below the element count and re-encoding it gives it back. */
  lemma {:induction false} LocateDelocate(n: nat, shape: seq<nat>)
    requires Positive(shape) && n < Product(shape)
    ensures Delocate(Digits(n, shape), shape, RowMajorStrides(shape)) == n
    decreases |shape|
  {
    if |shape| > 0 {
      var k := |shape| - 1;
      var s, d := shape[..k], shape[k];
      var q, r := n / d, n % d;
      var digits := Digits(n, shape);
      assert digits[..k] == Digits(q, s) && digits[k] == r;
      ProductInit(shape);
      DivBelow(n, d, Product(s));
      LocateDelocate(q, s);
      DelocateInit(digits, shape);
      Recompose(n, d);
    }
  }

  /** A coordinate vector inside the shape encodes to an offset below the element count. */
  lemma {:induction false} DelocateBound(idx: seq<nat>, shape: seq<nat>)
    requires Positive(shape) && InRange(idx, shape)
    ensures Delocate(idx, shape, RowMajorStrides(shape)) < Product(shape)
    decreases |shape|
  {
    if |shape| > 0 {
      var k := |shape| - 1;
      var s, d, x, front := shape[..k], shape[k], idx[k], idx[..k];
      ProductInit(shape);
      DelocateBound(front, s);
      DelocateInit(idx, shape);
      BoundStep(Delocate(front, s, RowMajorStrides(s)), Product(s), x, d);
    }
  }

  lemma Decompose(p: nat, x: nat, d: nat)
    requires x < d
    ensures (p * d + x % d) / d == p && (p * d + x % d) % d == x
  {
    assert x % d == x;
    DivMod(p * d + x, d, p, x);
  }

  /** locate_index inverts delocate_index: encoding a coordinate vector inside
      the shape and decoding the offset gives the coordinates back. */
  lemma {:induction false} DelocateLocate(idx: seq<nat>, shape: seq<nat>)
    requires Positive(shape) && InRange(idx, shape)
    ensures Digits(Delocate(idx, shape, RowMajorStrides(shape)), shape) == idx
    decreases |shape|
  {
    if |shape| > 0 {
      var k := |shape| - 1;
      var s, d, x, front := shape[..k], shape[k], idx[k], idx[..k];
      var p := Delocate(front, s, RowMajorStrides(s));
      var v := Delocate(idx, shape, RowMajorStrides(shape));
      DelocateInit(idx, shape);
      Decompose(p, x, d);
      DelocateLocate(front, s);
      assert Digits(v, shape) == Digits(p, s) + [x];
      assert idx == front + [x];
    }
  }

  lemma DigitsSnoc(v: nat, s: seq<nat>, d: nat)
    requires Positive(s) && d > 0
    ensures Positive(s + [d])
    ensures Digits(v, s + [d]) == Digits(v / d, s) + [v % d]
  {
    var t := s + [d];
    assert Positive(t);
    assert t[..|s|] == s;
  }
}
