/** The computation graph: its tensor list, operator list and sorted flag over the
    object tables, and the operations that wire operators in, sort them, rewrite them,
    infer shapes, check validity and plan the memory of every operator's outputs. */
module Graphs {
  import opened Common
  import opened GraphModel
  import opened Schedule
  import opened Rewrite
  import opened ShapeInference
  import opened Memory
  import opened Allocation
  import TransposeOp
  import MatmulOp
  import ConcatOp

  // ---------------------------------------------------------------------------
  // Queries that need no graph
  // ---------------------------------------------------------------------------

  /** A transpose that keeps every axis but the last two, which it swaps. */
  method IsSwapLast2Dims(h: Heap, o: OpId) returns (r: bool)
    ensures r == (IsTranspose(h, o) && TransposeOp.SwapsLastTwo(Perm(h, o)))
  {
    if !IsTranspose(h, o) {
      return false;
    }
    var perm := Perm(h, o);
    var n := |perm|;
    if n < 2 {
      return false;
    }
    var i := 0;
    while i < n - 2
      invariant 0 <= i <= n - 2
      invariant forall j :: 0 <= j < i ==> perm[j] == j
    {
      if perm[i] != i {
        return false;
      }
      i := i + 1;
    }
    return perm[n - 1] == n - 2 && perm[n - 2] == n - 1;
  }

  /** Rule A's check that `p2[p1[i]] == i` at every position of `p1`, stopping at the first
      position where it fails. */
  method CheckInverse(p1: seq<int>, p2: seq<int>) returns (inverse: bool)
    ensures inverse == InversePerms(p1, p2)
  {
    inverse := true;
    var i := 0;
    while i < |p1|
      invariant 0 <= i <= |p1|
      invariant forall j :: 0 <= j < i ==> 0 <= p1[j] < |p2| && p2[p1[j]] == j
    {
      if !(0 <= p1[i] < |p2|) || p2[p1[i]] != i {
        inverse := false;
        break;
      }
      i := i + 1;
    }
  }

  /** Every entry of `xs` occurs in `pool`: the membership search run on each entry. */
  method AllListed(xs: seq<nat>, pool: seq<nat>) returns (b: bool)
    ensures b <==> forall x :: x in xs ==> x in pool
  {
    var k := 0;
    while k < |xs|
      invariant 0 <= k <= |xs|
      invariant forall m :: 0 <= m < k ==> xs[m] in pool
    {
      if xs[k] !in pool {
        return false;
      }
      k := k + 1;
    }
    return true;
  }

  lemma UniqueSnoc(s: seq<nat>, x: nat)
    requires Unique(s) && x !in s
    ensures Unique(s + [x])
  {
    var s' := s + [x];
    forall i, j | 0 <= i < j < |s'| ensures s'[i] != s'[j] {
      if j < |s| {
        assert s'[i] == s[i] && s'[j] == s[j];
      } else {
        assert s'[i] == s[i];
      }
    }
  }

  /** Whether the outputs of the listed operators have plannable sizes depends only on which
      operators are listed. */
  lemma SizedPermuted(h: Heap, a: seq<OpId>, b: seq<OpId>)
    requires multiset(a) == multiset(b) && Sized(h, a)
    ensures Sized(h, b)
  {
    forall o, t | o in b && t in Outputs(h, o) ensures 1 <= Bytes(h, t) <= SizeLimit - Alignment {
      assert o in multiset(b);
    }
  }

  // ---------------------------------------------------------------------------
  // The graph
  // ---------------------------------------------------------------------------

  class Graph {
    var heap: Heap
    var tensors: seq<TensorId>
    var ops: seq<OpId>
    var sorted: bool
    const allocator: Allocator

    /** A graph over the objects `h`, with empty lists and a fresh planner. */
    constructor (h: Heap)
      ensures heap == h && tensors == [] && ops == [] && !sorted
      ensures fresh(allocator) && allocator.Valid() && allocator.blocks == [] && allocator.used == 0
      ensures !allocator.committed
    {
      heap, tensors, ops, sorted := h, [], [], false;
      allocator := new Allocator();
    }

    /** Lists an existing tensor object. */
    method AddTensor(t: TensorId)
      modifies this
      ensures tensors == old(tensors) + [t]
      ensures heap == old(heap) && ops == old(ops) && sorted == old(sorted)
    {
      tensors := tensors + [t];
    }

    // -------------------------------------------------------------------------
    // Wiring an operator in
    // -------------------------------------------------------------------------

    /** Lists the operator object `node` under `o` and links it to its inputs' writers and
        its outputs' readers; the list is no longer known to be sorted. */
    method AddOperatorAndConnect(o: OpId, node: OpNode)
      modifies this
      ensures heap == Connect(old(heap), o, node)
      ensures ops == old(ops) + [o] && !sorted && tensors == old(tensors)
    {
      sorted := false;
      ops := ops + [o];
      heap := heap.(opOf := heap.opOf[o := node]);
      ghost var h0 := heap;
      var ins := node.inputs;
      var j := 0;
      while j < |ins|
        invariant 0 <= j <= |ins|
        invariant LinkInputs(heap, o, ins[j..]) == LinkInputs(h0, o, ins)
        invariant ops == old(ops) + [o] && !sorted && tensors == old(tensors)
      {
        var t := ins[j];
        ghost var prev := heap;
        if t in heap.tensorOf {
          heap := AddTarget(heap, t, o);
          var src := Src(heap, t);
          if src.Some? {
            heap := AddSucc(heap, src.value, o);
            heap := AddPred(heap, o, src.value);
          }
        }
        assert heap == LinkInput(prev, o, t);
        assert ins[j..][1..] == ins[j + 1..];
        j := j + 1;
      }
      ghost var h1 := heap;
      var outs := node.outputs;
      j := 0;
      while j < |outs|
        invariant 0 <= j <= |outs|
        invariant LinkOutputs(heap, o, outs[j..]) == LinkOutputs(h1, o, outs)
        invariant ops == old(ops) + [o] && !sorted && tensors == old(tensors)
      {
        var t := outs[j];
        ghost var prev := heap;
        if t in heap.tensorOf {
          heap := SetSource(heap, t, o);
          ghost var hs := heap;
          var cs := Targets(heap, t);
          var k := 0;
          while k < |cs|
            invariant 0 <= k <= |cs|
            invariant LinkReaders(heap, o, cs[k..]) == LinkReaders(hs, o, cs)
            invariant ops == old(ops) + [o] && !sorted && tensors == old(tensors)
          {
            heap := AddPred(heap, cs[k], o);
            heap := AddSucc(heap, o, cs[k]);
            assert cs[k..][1..] == cs[k + 1..];
            k := k + 1;
          }
        }
        assert heap == LinkOutput(prev, o, t);
        assert outs[j..][1..] == outs[j + 1..];
        j := j + 1;
      }
    }

    // -------------------------------------------------------------------------
    // Topological sort
    // -------------------------------------------------------------------------

    /** Every input of `o` has no writer or a writer in `flags`. */
    method IsReady(o: OpId, flags: set<OpId>) returns (r: bool)
      ensures r == Ready(heap, o, flags)
    {
      var ins := Inputs(heap, o);
      r := true;
      var k := 0;
      while k < |ins| && r
        invariant 0 <= k <= |ins|
        invariant r <==> forall m :: 0 <= m < k ==> Src(heap, ins[m]).None? || Src(heap, ins[m]).value in flags
      {
        var src := Src(heap, ins[k]);
        r := src.None? || src.value in flags;
        k := k + 1;
      }
    }

    /** One sweep over the operator list: places, in list order, every operator not yet
        placed whose inputs' writers are all placed. */
    method SweepPass(order: seq<OpId>, flags: set<OpId>) returns (next: seq<OpId>, nextFlags: set<OpId>)
      requires flags == Items(order) && Unique(order) && TopoOrdered(heap, order)
      requires forall x :: x in order ==> x in ops
      ensures next == Sweep(heap, ops, 0, order)
      ensures nextFlags == Items(next) && Unique(next) && TopoOrdered(heap, next)
      ensures forall x :: x in next ==> x in ops
      ensures |next| <= |order| ==> forall j :: 0 <= j < |ops| ==> ops[j] in flags || !Ready(heap, ops[j], flags)
    {
      next, nextFlags := order, flags;
      for i := 0 to |ops|
        invariant nextFlags == Items(next) && Unique(next) && TopoOrdered(heap, next)
        invariant forall x :: x in next ==> x in ops
        invariant |next| >= |order|
        invariant |next| == |order| ==> next == order && forall j :: 0 <= j < i ==> ops[j] in flags || !Ready(heap, ops[j], flags)
        invariant Sweep(heap, ops, 0, order) == Sweep(heap, ops, i, next)
      {
        var o := ops[i];
        if o !in nextFlags {
          var ready := IsReady(o, nextFlags);
          if ready {
            TopoSnoc(heap, next, o);
            UniqueSnoc(next, o);
            next := next + [o];
            nextFlags := nextFlags + {o};
          }
        }
      }
    }

    /** Sweeps the operator list again and again, placing every operator whose inputs'
        writers are all placed, and gives up after a sweep that places nothing. On success
        the list is a topological order of the old one; it fails exactly when no such order
        exists. An already sorted graph is left as it is. */
    method TopoSort() returns (ok: bool)
      modifies this
      ensures heap == old(heap) && tensors == old(tensors)
      ensures old(sorted) ==> ok && ops == old(ops) && sorted
      ensures !old(sorted) ==> (ok <==> Schedulable(heap, old(ops)))
      ensures !old(sorted) && ok ==>
        sorted && multiset(ops) == multiset(old(ops)) && Unique(ops) && TopoOrdered(heap, ops)
      ensures !old(sorted) ==> (ok <==> SweepOrder(heap, old(ops), []).Some?)
      ensures !old(sorted) && ok ==> SweepOrder(heap, old(ops), []) == Some(ops)
      ensures !ok ==> ops == old(ops) && sorted == old(sorted)
    {
      if sorted {
        return true;
      }
      var order: seq<OpId> := [];
      var flags: set<OpId> := {};
      while |order| < |ops|
        invariant flags == Items(order) && Unique(order) && TopoOrdered(heap, order)
        invariant forall x :: x in order ==> x in ops
        invariant |order| <= |ops|
        invariant heap == old(heap) && tensors == old(tensors) && ops == old(ops) && sorted == old(sorted)
        invariant SweepOrder(heap, ops, []) == SweepOrder(heap, ops, order)
        decreases |ops| - |order|
      {
        var next, nextFlags := SweepPass(order, flags);
        if |next| <= |order| {
          Unstuck(heap, ops, order);
          return false;
        }
        order, flags := next, nextFlags;
        UniqueShorter(order, ops);
      }
      Rearranged(order, ops);
      ops := order;
      sorted := true;
      return true;
    }

    // -------------------------------------------------------------------------
    // Optimization
    // -------------------------------------------------------------------------

    /** Whether rule A applies at `o`. */
    method InverseAtOp(o: OpId) returns (b: bool)
      requires Arity(heap)
      ensures b == InverseAt(heap, o)
    {
      if !IsTranspose(heap, o) {
        return false;
      }
      var out := Outputs(heap, o)[0];
      if |Targets(heap, out)| != 1 {
        return false;
      }
      var next := Targets(heap, out)[0];
      if !IsTranspose(heap, next) {
        return false;
      }
      b := CheckInverse(Perm(heap, o), Perm(heap, next));
    }

    /** The first pass: the position of the first operator where rule A applies. */
    method FindInverse() returns (r: Option<nat>)
      requires Arity(heap)
      ensures r == FirstInverse(heap, ops, 0)
    {
      var k := 0;
      while k < |ops|
        invariant 0 <= k <= |ops|
        invariant FirstInverse(heap, ops, k) == FirstInverse(heap, ops, 0)
      {
        var hit := InverseAtOp(ops[k]);
        if hit {
          return Some(k);
        }
        k := k + 1;
      }
      return None;
    }

    /** Rule A at `o`: redirects the readers of the second transpose's output, one by one,
        to the first transpose's input, then erases both transposes and their outputs
        from the lists. */
    method ApplyInverse(o: OpId)
      requires Arity(heap) && InverseAt(heap, o)
      modifies this
      ensures Net(heap, tensors, ops) == EraseInverse(old(Net(heap, tensors, ops)), o)
      ensures sorted == old(sorted)
    {
      var out := Outputs(heap, o)[0];
      var next := Targets(heap, out)[0];
      var inT := Inputs(heap, o)[0];
      var outT := Outputs(heap, next)[0];
      var cs := Targets(heap, outT);
      ghost var h0 := heap;
      var j := 0;
      while j < |cs|
        invariant 0 <= j <= |cs|
        invariant heap == Rewire(h0, cs[..j], outT, inT)
        invariant tensors == old(tensors) && ops == old(ops) && sorted == old(sorted)
      {
        heap := ReplaceInput(heap, cs[j], outT, inT);
        heap := AddTarget(heap, inT, cs[j]);
        assert cs[..j + 1][..j] == cs[..j];
        j := j + 1;
      }
      assert cs[..j] == cs;
      tensors := Without(Without(tensors, out), outT);
      ops := Without(Without(ops, o), next);
    }

    /** The second pass: the first multiply, and its first input, where rule B applies. */
    method FindFold() returns (r: Option<(nat, nat)>)
      ensures r == FirstFold(heap, ops, 0)
    {
      var idx := 0;
      while idx < |ops|
        invariant 0 <= idx <= |ops|
        invariant FirstFold(heap, ops, idx) == FirstFold(heap, ops, 0)
      {
        var c := ops[idx];
        if IsMatMul(heap, c) {
          var ins := Inputs(heap, c);
          var i := 0;
          while i < |ins|
            invariant 0 <= i <= |ins|
            invariant FirstFoldInput(heap, c, i) == FirstFoldInput(heap, c, 0)
          {
            var src := Src(heap, ins[i]);
            if src.Some? && IsTranspose(heap, src.value) {
              var swap := IsSwapLast2Dims(heap, src.value);
              if swap {
                return Some((idx, i));
              }
            }
            i := i + 1;
          }
        }
        idx := idx + 1;
      }
      return None;
    }

    /** Rule B at input `i` of the multiply `c`. */
    method ApplyFold(c: OpId, i: nat)
      requires Arity(heap) && FoldAt(heap, c, i)
      modifies this
      ensures Net(heap, tensors, ops) == FoldTranspose(old(Net(heap, tensors, ops)), c, i)
      ensures sorted == old(sorted)
    {
      var t := Inputs(heap, c)[i];
      var src := Src(heap, t).value;
      var realInput := Inputs(heap, src)[0];
      heap := Flip(heap, c, i);
      heap := ReplaceInput(heap, c, t, realInput);
      heap := AddTarget(heap, realInput, c);
      tensors := Without(tensors, t);
      ops := Without(ops, src);
    }

    /** Applies rule A where it first applies, or else rule B where it first applies, until
        neither applies: the result is the optimized graph. It must stop on a ranked graph;
        `rank` is a witness of that. */
    method Optimize(ghost rank: map<OpId, nat>)
      requires Ranked(heap, rank) && Arity(heap)
      modifies this
      ensures Net(heap, tensors, ops) == Optimized(old(Net(heap, tensors, ops)), rank)
      ensures sorted == old(sorted)
    {
      ghost var goal := Optimized(Net(heap, tensors, ops), rank);
      var changed := true;
      while changed
        invariant Ranked(heap, rank) && Arity(heap)
        invariant Optimized(Net(heap, tensors, ops), rank) == goal
        invariant !changed ==> FirstInverse(heap, ops, 0).None? && FirstFold(heap, ops, 0).None?
        invariant sorted == old(sorted)
        decreases |ops|, Weight(Net(heap, tensors, ops), rank), changed
      {
        changed := false;
        var k := FindInverse();
        if k.Some? {
          EraseFacts(Net(heap, tensors, ops), ops[k.value], rank);
          ApplyInverse(ops[k.value]);
          changed := true;
        } else {
          var f := FindFold();
          if f.Some? {
            FoldFacts(Net(heap, tensors, ops), ops[f.value.0], f.value.1, rank);
            ApplyFold(ops[f.value.0], f.value.1);
            changed := true;
          }
        }
      }
    }

    // -------------------------------------------------------------------------
    // Shape inference
    // -------------------------------------------------------------------------

    /** The first listed tensor with family id `fuid`, or none. */
    method GetTensor(fuid: nat) returns (r: Option<TensorId>)
      ensures r == FindByFuid(heap, tensors, fuid)
    {
      var i := 0;
      while i < |tensors|
        invariant 0 <= i <= |tensors|
        invariant FindByFuid(heap, tensors[i..], fuid) == FindByFuid(heap, tensors, fuid)
      {
        if Fuid(heap, tensors[i]) == fuid {
          return Some(tensors[i]);
        }
        assert tensors[i..][1..] == tensors[i + 1..];
        i := i + 1;
      }
      return None;
    }

    /** Runs `o`'s own shape inference on its inputs' shapes; a multiply stores the m, n, k
        it derives. Returns the output shapes, or none where inference failed. */
    method OperatorShapes(o: OpId) returns (shapes: Option<seq<seq<nat>>>)
      modifies this
      ensures tensors == old(tensors) && ops == old(ops) && sorted == old(sorted)
      ensures shapes.Some? <==> OpShapes(old(heap), o).Ok?
      ensures shapes.Some? ==> shapes.value == OpShapes(old(heap), o).value.0
      ensures shapes.Some? ==> heap == RecordMnk(old(heap), o, OpShapes(old(heap), o).value.1)
    {
      if o !in heap.opOf {
        return None;
      }
      var node := heap.opOf[o];
      var ins := node.inputs;
      match node.kind {
        case MatMul(transA, transB, _) =>
          if |ins| < 2 {
            return None;
          }
          var r := MatmulOp.InferShape(Dims(heap, ins[0]), Dims(heap, ins[1]), transA, transB);
          if r.Err? {
            return None;
          }
          heap := heap.(opOf := heap.opOf[o := node.(kind := node.kind.(mnk := r.value.mnk))]);
          return Some([r.value.output]);
        case Transpose(perm) =>
          if |ins| < 1 {
            return None;
          }
          var r := TransposeOp.InferShape(Dims(heap, ins[0]), perm);
          if r.Err? {
            return None;
          }
          return Some([r.value]);
        case Concat(dim) =>
          var r := ConcatOp.InferShape(InputDims(heap, ins), dim);
          if r.Err? {
            return None;
          }
          return Some([r.value]);
      }
    }

    /** Shape inference of one operator: infer, assert a shape per output, and reshape
        each output whose shape changed through the tensor listed under its family id. */
    method InferOne(o: OpId) returns (ok: bool)
      modifies this
      ensures tensors == old(tensors) && ops == old(ops) && sorted == old(sorted)
      ensures ok <==> InferStep(old(heap), tensors, o).Ok?
      ensures ok ==> heap == InferStep(old(heap), tensors, o).value
    {
      var ans := OperatorShapes(o);
      if ans.None? {
        return false;
      }
      var shapes := ans.value;
      var outs := Outputs(heap, o);
      if |shapes| != |outs| {
        return false;
      }
      ghost var h1 := heap;
      var i := 0;
      while i < |shapes|
        invariant 0 <= i <= |shapes|
        invariant tensors == old(tensors) && ops == old(ops) && sorted == old(sorted)
        invariant ReshapeAll(h1, tensors, outs, shapes, i) == Ok(heap)
      {
        var t := outs[i];
        if t !in heap.tensorOf {
          ReshapeFailureStays(h1, tensors, outs, shapes, i + 1, |shapes|);
          return false;
        }
        var newShape := shapes[i];
        if newShape != Dims(heap, t) {
          var u := GetTensor(Fuid(heap, t));
          if u.None? {
            ReshapeFailureStays(h1, tensors, outs, shapes, i + 1, |shapes|);
            return false;
          }
          heap := SetDims(heap, u.value, newShape);
        }
        i := i + 1;
      }
      return true;
    }

    /** Shape inference over the operator list in order; false where an assertion fails
        or a null tensor would be reshaped. */
    method ShapeInfer() returns (ok: bool)
      modifies this
      ensures tensors == old(tensors) && ops == old(ops) && sorted == old(sorted)
      ensures ok <==> InferAll(old(heap), tensors, ops).Ok?
      ensures ok ==> heap == InferAll(old(heap), tensors, ops).value
    {
      ghost var h0 := heap;
      var i := 0;
      while i < |ops|
        invariant 0 <= i <= |ops|
        invariant tensors == old(tensors) && ops == old(ops) && sorted == old(sorted)
        invariant InferAll(h0, tensors, ops) == InferAll(heap, tensors, ops[i..])
      {
        ghost var prev := heap;
        assert ops[i..][0] == ops[i] && ops[i..][1..] == ops[i + 1..];
        var step := InferOne(ops[i]);
        if !step {
          assert InferAll(prev, tensors, ops[i..]).Err?;
          return false;
        }
        i := i + 1;
      }
      return true;
    }

    // -------------------------------------------------------------------------
    // Validity
    // -------------------------------------------------------------------------

    /** The validity check: each tensor has a writer or a reader, all listed; each listed
        operator's operands are listed tensors and its neighbours listed operators; and no
        two listed tensors share a family id. A failed assertion is `Err`. */
    method CheckValid() returns (r: Result<bool>)
      ensures r == if GraphValid(heap, tensors, ops) then Ok(true) else Err(AssertFailed)
    {
      var ok := TensorsLinked();
      if !ok {
        return Err(AssertFailed);
      }
      ok := OperatorsLinked();
      if !ok {
        return Err(AssertFailed);
      }
      ok := FuidsUnique();
      if !ok {
        return Err(AssertFailed);
      }
      return Ok(true);
    }

    /** The check's first loop: every listed tensor has a writer or a reader, and they
        are listed operators. */
    method TensorsLinked() returns (ok: bool)
      ensures ok <==>
        (forall t :: t in tensors ==> |Targets(heap, t)| > 0 || Src(heap, t).Some?) &&
        (forall t, c :: t in tensors && c in Targets(heap, t) ==> c in ops) &&
        (forall t :: t in tensors && Src(heap, t).Some? ==> Src(heap, t).value in ops)
    {
      var i := 0;
      while i < |tensors|
        invariant 0 <= i <= |tensors|
        invariant forall j :: 0 <= j < i ==> |Targets(heap, tensors[j])| > 0 || Src(heap, tensors[j]).Some?
        invariant forall j, c :: 0 <= j < i && c in Targets(heap, tensors[j]) ==> c in ops
        invariant forall j :: 0 <= j < i && Src(heap, tensors[j]).Some? ==> Src(heap, tensors[j]).value in ops
      {
        var t := tensors[i];
        if |Targets(heap, t)| == 0 && Src(heap, t).None? {
          return false;
        }
        var listed := AllListed(Targets(heap, t), ops);
        if !listed {
          return false;
        }
        var src := Src(heap, t);
        if src.Some? && src.value !in ops {
          return false;
        }
        i := i + 1;
      }
      return true;
    }

    /** The check's second loop: every listed operator's inputs and outputs are listed
        tensors, and its predecessors and successors listed operators. */
    method OperatorsLinked() returns (ok: bool)
      ensures ok <==>
        (forall o, t :: o in ops && t in Inputs(heap, o) ==> t in tensors) &&
        (forall o, t :: o in ops && t in Outputs(heap, o) ==> t in tensors) &&
        (forall o, p :: o in ops && p in Preds(heap, o) ==> p in ops) &&
        (forall o, p :: o in ops && p in Succs(heap, o) ==> p in ops)
    {
      var i := 0;
      while i < |ops|
        invariant 0 <= i <= |ops|
        invariant forall j, t :: 0 <= j < i && t in Inputs(heap, ops[j]) ==> t in tensors
        invariant forall j, t :: 0 <= j < i && t in Outputs(heap, ops[j]) ==> t in tensors
        invariant forall j, p :: 0 <= j < i && p in Preds(heap, ops[j]) ==> p in ops
        invariant forall j, p :: 0 <= j < i && p in Succs(heap, ops[j]) ==> p in ops
      {
        var o := ops[i];
        var listed := AllListed(Inputs(heap, o), tensors);
        if !listed {
          return false;
        }
        listed := AllListed(Outputs(heap, o), tensors);
        if !listed {
          return false;
        }
        listed := AllListed(Preds(heap, o), ops);
        if !listed {
          return false;
        }
        listed := AllListed(Succs(heap, o), ops);
        if !listed {
          return false;
        }
        i := i + 1;
      }
      return true;
    }

    /** The check's last loop: the family ids seen so far are collected in a set, and a
        repeat fails. */
    method FuidsUnique() returns (ok: bool)
      ensures ok <==> forall a, b :: 0 <= a < b < |tensors| ==> Fuid(heap, tensors[a]) != Fuid(heap, tensors[b])
    {
      var seen: set<nat> := {};
      var i := 0;
      while i < |tensors|
        invariant 0 <= i <= |tensors|
        invariant forall f :: f in seen <==> exists j :: 0 <= j < i && Fuid(heap, tensors[j]) == f
        invariant forall a, b :: 0 <= a < b < i ==> Fuid(heap, tensors[a]) != Fuid(heap, tensors[b])
      {
        var f := Fuid(heap, tensors[i]);
        if f in seen {
          return false;
        }
        seen := seen + {f};
        i := i + 1;
      }
      return true;
    }

    // -------------------------------------------------------------------------
    // Memory planning
    // -------------------------------------------------------------------------

    /** For each tensor that some operator reads or writes, the index of the last such
        operator. */
    method LastUses() returns (last: map<TensorId, nat>)
      ensures last == LastUse(heap, ops)
    {
      last := map[];
      var i := 0;
      while i < |ops|
        invariant 0 <= i <= |ops|
        invariant last == LastUse(heap, ops[..i])
      {
        var ins := Inputs(heap, ops[i]);
        ghost var base := last;
        var j := 0;
        while j < |ins|
          invariant 0 <= j <= |ins|
          invariant last == Stamp(base, ins[..j], i)
        {
          last := last[ins[j] := i];
          assert ins[..j + 1][..j] == ins[..j];
          j := j + 1;
        }
        assert ins[..j] == ins;
        var outs := Outputs(heap, ops[i]);
        ghost var mid := last;
        j := 0;
        while j < |outs|
          invariant 0 <= j <= |outs|
          invariant last == Stamp(mid, outs[..j], i)
        {
          last := last[outs[j] := i];
          assert outs[..j + 1][..j] == outs[..j];
          j := j + 1;
        }
        assert outs[..j] == outs;
        assert ops[..i + 1][..i] == ops[..i];
        i := i + 1;
      }
      assert ops[..i] == ops;
    }

    /** Allocates the outputs of operator `i` in order, recording their offsets. */
    method AllocateOutputs(i: nat, ghost p: Plan, addr: map<TensorId, nat>, live: set<TensorId>)
      returns (addr': map<TensorId, nat>, live': set<TensorId>)
      requires i < |ops| && Sized(heap, ops)
      requires allocator.Valid() && !allocator.committed
      requires p == Plan(allocator.blocks, allocator.used, addr, live)
      modifies allocator
      ensures allocator.Valid() && !allocator.committed
      ensures Plan(allocator.blocks, allocator.used, addr', live') == AllocOutputs(heap, p, Outputs(heap, ops[i]))
    {
      var outs := Outputs(heap, ops[i]);
      addr', live' := addr, live;
      var j := 0;
      while j < |outs|
        invariant 0 <= j <= |outs|
        invariant allocator.Valid() && !allocator.committed
        invariant Plan(allocator.blocks, allocator.used, addr', live') == AllocOutputs(heap, p, outs[..j])
      {
        var t := outs[j];
        var a := allocator.Alloc(Bytes(heap, t));
        addr' := addr'[t := a];
        live' := live' + {t};
        assert outs[..j + 1][..j] == outs[..j];
        j := j + 1;
      }
      assert outs[..j] == outs;
    }

    /** Releases each input of operator `i` whose last use is `i`, if it still holds a block. */
    method ReleaseInputs(i: nat, last: map<TensorId, nat>, ghost p: Plan, addr: map<TensorId, nat>, live: set<TensorId>)
      returns (live': set<TensorId>)
      requires i < |ops| && Holds(heap, p)
      requires allocator.Valid() && !allocator.committed
      requires p == Plan(allocator.blocks, allocator.used, addr, live)
      modifies allocator
      ensures allocator.Valid() && !allocator.committed
      ensures Plan(allocator.blocks, allocator.used, addr, live') == FreeInputs(p, Inputs(heap, ops[i]), last, i)
    {
      var ins := Inputs(heap, ops[i]);
      live' := live;
      var j := 0;
      while j < |ins|
        invariant 0 <= j <= |ins|
        invariant allocator.Valid() && !allocator.committed
        invariant Plan(allocator.blocks, allocator.used, addr, live') == FreeInputs(p, ins[..j], last, i)
      {
        var t := ins[j];
        FreeInputsHolds(heap, p, ins[..j], last, i);
        FreeInputsReleases(p, ins[..j], last, i);
        if t in live' && t in addr && t in last && last[t] == i {
          HeldBlockAllocated(heap, FreeInputs(p, ins[..j], last, i), t);
          allocator.Free(addr[t], Bytes(heap, t));
          live' := live' - {t};
        }
        assert ins[..j + 1][..j] == ins[..j];
        j := j + 1;
      }
      assert ins[..j] == ins;
    }

    /** Sorts the operators (a failed sort is a failed assertion), computes every tensor's
        last use, and walks the operators in order: each one's outputs get blocks, then
        each input at its last use gives its block back. Finally the arena is committed.
        The result is the offset of every tensor an operator writes. */
    method DataMalloc() returns (r: Result<map<TensorId, nat>>)
      requires allocator.Valid() && !allocator.committed && Sized(heap, ops)
      modifies this, allocator
      ensures heap == old(heap) && tensors == old(tensors)
      ensures r.Err? <==> !old(sorted) && !Schedulable(heap, old(ops))
      ensures r.Err? ==> r.failure == AssertFailed
      ensures r.Ok? ==> multiset(ops) == multiset(old(ops)) && (!old(sorted) ==> TopoOrdered(heap, ops))
      ensures r.Ok? && !old(sorted) ==> SweepOrder(heap, old(ops), []) == Some(ops)
      ensures r.Ok? && old(sorted) ==> ops == old(ops)
      ensures r.Ok? ==> Sized(heap, ops)
      ensures r.Ok? ==> (var p := PlanUpTo(heap, ops, Start(old(allocator.blocks), old(allocator.used)), |ops|);
        r.value == p.addr && allocator.blocks == p.blocks && allocator.used == p.used)
      ensures r.Ok? ==> allocator.Valid() && allocator.committed
    {
      ghost var ops0 := ops;
      var ok := TopoSort();
      if !ok {
        return Err(AssertFailed);
      }
      SizedPermuted(heap, ops0, ops);
      var last := LastUses();
      var addr := PlanAll(last);
      var bytes := allocator.GetPtr();
      return Ok(addr);
    }

    /** The planning walk over the operator list: operator by operator, its outputs get
        blocks, then each of its inputs at its last use gives its block back. */
    method PlanAll(last: map<TensorId, nat>) returns (addr: map<TensorId, nat>)
      requires allocator.Valid() && !allocator.committed && Sized(heap, ops) && last == LastUse(heap, ops)
      modifies allocator
      ensures allocator.Valid() && !allocator.committed
      ensures var p := PlanUpTo(heap, ops, Start(old(allocator.blocks), old(allocator.used)), |ops|);
        addr == p.addr && allocator.blocks == p.blocks && allocator.used == p.used
    {
      ghost var p0 := Start(allocator.blocks, allocator.used);
      StartHolds(heap, allocator.blocks, allocator.used);
      addr := map[];
      var live: set<TensorId> := {};
      var i := 0;
      while i < |ops|
        invariant 0 <= i <= |ops|
        invariant allocator.Valid() && !allocator.committed
        invariant PlanUpTo(heap, ops, p0, i) == Plan(allocator.blocks, allocator.used, addr, live)
      {
        addr, live := PlanStep(i, last, p0, addr, live);
        i := i + 1;
      }
    }

    /** One step of the walk: operator `i`'s outputs get blocks, then its inputs at their
        last use give their blocks back. */
    method PlanStep(i: nat, last: map<TensorId, nat>, ghost p0: Plan, addr: map<TensorId, nat>, live: set<TensorId>)
      returns (addr': map<TensorId, nat>, live': set<TensorId>)
      requires i < |ops| && Sized(heap, ops) && last == LastUse(heap, ops) && Holds(heap, p0)
      requires allocator.Valid() && !allocator.committed
      requires Plan(allocator.blocks, allocator.used, addr, live) == PlanUpTo(heap, ops, p0, i)
      modifies allocator
      ensures allocator.Valid() && !allocator.committed
      ensures Plan(allocator.blocks, allocator.used, addr', live') == PlanUpTo(heap, ops, p0, i + 1)
    {
      addr', live' := AllocateOutputs(i, PlanUpTo(heap, ops, p0, i), addr, live);
      AllocatedHolds(heap, ops, p0, i);
      live' := ReleaseInputs(i, last, Allocated(heap, ops, p0, i), addr', live');
    }
  }
}
