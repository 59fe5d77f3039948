/** Shape inference over the whole graph: what each operator infers from the current
    shapes of its inputs, how the graph finds the tensor to reshape by its family id,
    and what a pass over the operator list changes and keeps. */
module ShapeInference {
  import opened Common
  import opened Permutations
  import opened GraphModel
  import MatmulOp
  import ConcatOp

  // ---------------------------------------------------------------------------
  // Finding a tensor by its family id
  // ---------------------------------------------------------------------------

  /** The first tensor of `ts` whose family id is `fuid`, or none (a null pointer). */
  function FindByFuid(h: Heap, ts: seq<TensorId>, fuid: nat): (r: Option<TensorId>)
    ensures r.Some? ==> r.value in ts && Fuid(h, r.value) == fuid
    ensures r.None? <==> forall t :: t in ts ==> Fuid(h, t) != fuid
    decreases |ts|
  {
    if |ts| == 0 then None
    else if Fuid(h, ts[0]) == fuid then Some(ts[0])
    else
      assert forall t :: t in ts ==> t == ts[0] || t in ts[1..];
      FindByFuid(h, ts[1..], fuid)
  }

  /** No two entries of `ts` share a family id. */
  predicate FuidsDistinct(h: Heap, ts: seq<TensorId>)
  {
    forall i, j :: 0 <= i < j < |ts| ==> Fuid(h, ts[i]) != Fuid(h, ts[j])
  }

  /** When family ids are distinct, looking a listed tensor up by its id finds that tensor. */
  lemma {:induction false} FindOwnFuid(h: Heap, ts: seq<TensorId>, t: TensorId)
    requires FuidsDistinct(h, ts) && t in ts
    ensures FindByFuid(h, ts, Fuid(h, t)) == Some(t)
    decreases |ts|
  {
    if ts[0] != t {
      assert Fuid(h, ts[0]) != Fuid(h, t) by {
        var j :| 0 <= j < |ts| && ts[j] == t;
        assert j > 0;
      }
      assert t in ts[1..];
      assert FuidsDistinct(h, ts[1..]) by {
        forall i, j | 0 <= i < j < |ts[1..]| ensures Fuid(h, ts[1..][i]) != Fuid(h, ts[1..][j]) {
          assert ts[1..][i] == ts[i + 1] && ts[1..][j] == ts[j + 1];
        }
      }
      FindOwnFuid(h, ts[1..], t);
    }
  }

  // ---------------------------------------------------------------------------
  // One operator's inference
  // ---------------------------------------------------------------------------

  function InputDims(h: Heap, ts: seq<TensorId>): (r: seq<seq<nat>>)
    ensures |r| == |ts| && forall i :: 0 <= i < |ts| ==> r[i] == Dims(h, ts[i])
  {
    seq(|ts|, i requires 0 <= i < |ts| => Dims(h, ts[i]))
  }

  /** What `o` infers from the current shapes of its inputs: its output shapes and, for a
      multiply, the m, n, k it records. A multiply reads two inputs and a transpose one;
      fewer inputs, a failed assertion or an empty result is an error. */
  function OpShapes(h: Heap, o: OpId): Result<(seq<seq<nat>>, Option<MatmulOp.Mnk>)>
  {
    if o !in h.opOf then Err(AssertFailed)
    else
      var ins := h.opOf[o].inputs;
      match h.opOf[o].kind
      case MatMul(transA, transB, _) =>
        if |ins| < 2 then Err(AssertFailed)
        else
          (match MatmulOp.Infer(Dims(h, ins[0]), Dims(h, ins[1]), transA, transB)
           case Ok(r) => Ok(([r.output], Some(r.mnk)))
           case Err(e) => Err(e))
      case Transpose(perm) =>
        if |ins| < 1 || !IsPermutation(perm, |Dims(h, ins[0])|) then Err(AssertFailed)
        else Ok(([Permute(Dims(h, ins[0]), perm)], None))
      case Concat(dim) =>
        var shapes := InputDims(h, ins);
        if ConcatOp.Concatenable(shapes, dim) then Ok(([ConcatOp.ConcatShape(shapes, dim)], None))
        else Err(AssertFailed)
  }

  /** A multiply stores the m, n, k its inference derived. */
  function RecordMnk(h: Heap, o: OpId, mnk: Option<MatmulOp.Mnk>): Heap
  {
    if mnk.Some? && IsMatMul(h, o)
    then h.(opOf := h.opOf[o := h.opOf[o].(kind := h.opOf[o].kind.(mnk := mnk.value))])
    else h
  }

  function SetDims(h: Heap, t: TensorId, dims: seq<nat>): Heap
  {
    if t in h.tensorOf then h.(tensorOf := h.tensorOf[t := h.tensorOf[t].(dims := dims)]) else h
  }

  /** One output gets its inferred shape: when the shape differs, the tensor listed under
      its family id is reshaped. A missing output, or no listed tensor with that id, is a
      null pointer dereference. */
  function Reshape(h: Heap, tensors: seq<TensorId>, t: TensorId, shape: seq<nat>): Result<Heap>
  {
    if t !in h.tensorOf then Err(AssertFailed)
    else if shape == Dims(h, t) then Ok(h)
    else match FindByFuid(h, tensors, Fuid(h, t))
      case None => Err(AssertFailed)
      case Some(u) => Ok(SetDims(h, u, shape))
  }

  /** The first `i` outputs get their shapes, in order. */
  function ReshapeAll(h: Heap, tensors: seq<TensorId>, outs: seq<TensorId>, shapes: seq<seq<nat>>, i: nat): Result<Heap>
    requires |shapes| == |outs| && i <= |outs|
    decreases i
  {
    if i == 0 then Ok(h)
    else match ReshapeAll(h, tensors, outs, shapes, i - 1)
      case Err(e) => Err(e)
      case Ok(h1) => Reshape(h1, tensors, outs[i - 1], shapes[i - 1])
  }

  /** Shape inference of one operator: infer, check that there is a shape per output, and
      reshape the outputs. */
  function InferStep(h: Heap, tensors: seq<TensorId>, o: OpId): Result<Heap>
  {
    match OpShapes(h, o)
    case Err(_) => Err(AssertFailed)
    case Ok(res) =>
      var h1 := RecordMnk(h, o, res.1);
      if |res.0| != |Outputs(h1, o)| then Err(AssertFailed)
      else ReshapeAll(h1, tensors, Outputs(h1, o), res.0, |res.0|)
  }

  /** Shape inference over the operators of `ops`, in order, stopping at the first failure. */
  function InferAll(h: Heap, tensors: seq<TensorId>, ops: seq<OpId>): Result<Heap>
    decreases |ops|
  {
    if |ops| == 0 then Ok(h)
    else match InferStep(h, tensors, ops[0])
      case Err(e) => Err(e)
      case Ok(h1) => InferAll(h1, tensors, ops[1..])
  }

  /** Once reshaping an output fails, reshaping more outputs fails too. */
  lemma {:induction false} ReshapeFailureStays(h: Heap, tensors: seq<TensorId>, outs: seq<TensorId>, shapes: seq<seq<nat>>, i: nat, j: nat)
    requires |shapes| == |outs| && i <= j <= |outs| && ReshapeAll(h, tensors, outs, shapes, i).Err?
    ensures ReshapeAll(h, tensors, outs, shapes, j).Err?
    decreases j
  {
    if i < j {
      ReshapeFailureStays(h, tensors, outs, shapes, i, j - 1);
    }
  }

  // ---------------------------------------------------------------------------
  // What shape inference keeps
  // ---------------------------------------------------------------------------

  /** An operator with the m, n, k of a multiply blanked. */
  function Unrecorded(n: OpNode): OpNode
  {
    if n.kind.MatMul? then n.(kind := n.kind.(mnk := MatmulOp.Mnk(0, 0, 0))) else n
  }

  /** `h` and `h'` hold the same objects with the same fields, except for tensor shapes and
      the m, n, k of multiplies. */
  predicate SameWiring(h: Heap, h': Heap)
  {
    h'.tensorOf.Keys == h.tensorOf.Keys && h'.opOf.Keys == h.opOf.Keys &&
    (forall t :: t in h.tensorOf ==> h'.tensorOf[t].(dims := []) == h.tensorOf[t].(dims := [])) &&
    (forall o :: o in h.opOf ==> Unrecorded(h'.opOf[o]) == Unrecorded(h.opOf[o]))
  }

  lemma SameWiringTrans(h1: Heap, h2: Heap, h3: Heap)
    requires SameWiring(h1, h2) && SameWiring(h2, h3)
    ensures SameWiring(h1, h3)
  {
    forall t | t in h1.tensorOf ensures h3.tensorOf[t].(dims := []) == h1.tensorOf[t].(dims := []) {
      assert h3.tensorOf[t].(dims := []) == h2.tensorOf[t].(dims := []);
    }
    forall o | o in h1.opOf ensures Unrecorded(h3.opOf[o]) == Unrecorded(h1.opOf[o]) {
      assert Unrecorded(h3.opOf[o]) == Unrecorded(h2.opOf[o]);
    }
  }

  lemma ReshapeWiring(h: Heap, tensors: seq<TensorId>, t: TensorId, shape: seq<nat>)
    requires Reshape(h, tensors, t, shape).Ok?
    ensures SameWiring(h, Reshape(h, tensors, t, shape).value)
  {
    var h' := Reshape(h, tensors, t, shape).value;
    forall u | u in h.tensorOf ensures h'.tensorOf[u].(dims := []) == h.tensorOf[u].(dims := []) {
    }
  }

  lemma {:induction false} ReshapeAllWiring(h: Heap, tensors: seq<TensorId>, outs: seq<TensorId>, shapes: seq<seq<nat>>, i: nat)
    requires |shapes| == |outs| && i <= |outs|
    requires ReshapeAll(h, tensors, outs, shapes, i).Ok?
    ensures SameWiring(h, ReshapeAll(h, tensors, outs, shapes, i).value)
    decreases i
  {
    if i == 0 {
      assert SameWiring(h, h);
    } else {
      ReshapeAllWiring(h, tensors, outs, shapes, i - 1);
      var h1 := ReshapeAll(h, tensors, outs, shapes, i - 1).value;
      ReshapeWiring(h1, tensors, outs[i - 1], shapes[i - 1]);
      SameWiringTrans(h, h1, ReshapeAll(h, tensors, outs, shapes, i).value);
    }
  }

  lemma InferStepWiring(h: Heap, tensors: seq<TensorId>, o: OpId)
    requires InferStep(h, tensors, o).Ok?
    ensures SameWiring(h, InferStep(h, tensors, o).value)
  {
    var res := OpShapes(h, o).value;
    var h1 := RecordMnk(h, o, res.1);
    assert SameWiring(h, h1) by {
      forall x | x in h.opOf ensures Unrecorded(h1.opOf[x]) == Unrecorded(h.opOf[x]) {
      }
    }
    ReshapeAllWiring(h1, tensors, Outputs(h1, o), res.0, |res.0|);
    SameWiringTrans(h, h1, InferStep(h, tensors, o).value);
  }

  /** Shape inference changes only shapes and the recorded m, n, k: every object, link,
      family id and element width stays as it was. */
  lemma {:induction false} InferKeepsWiring(h: Heap, tensors: seq<TensorId>, ops: seq<OpId>)
    requires InferAll(h, tensors, ops).Ok?
    ensures SameWiring(h, InferAll(h, tensors, ops).value)
    decreases |ops|
  {
    if |ops| == 0 {
      assert SameWiring(h, h);
    } else {
      InferStepWiring(h, tensors, ops[0]);
      var h1 := InferStep(h, tensors, ops[0]).value;
      InferKeepsWiring(h1, tensors, ops[1..]);
      SameWiringTrans(h, h1, InferAll(h, tensors, ops).value);
    }
  }

  /** So a graph that passed the validity check still passes it after shape inference. */
  lemma InferKeepsValid(h: Heap, tensors: seq<TensorId>, ops: seq<OpId>)
    requires GraphValid(h, tensors, ops) && InferAll(h, tensors, ops).Ok?
    ensures GraphValid(InferAll(h, tensors, ops).value, tensors, ops)
  {
    InferKeepsWiring(h, tensors, ops);
    var h' := InferAll(h, tensors, ops).value;
    assert forall t :: t in h.tensorOf ==> h'.tensorOf[t].(dims := []) == h.tensorOf[t].(dims := []);
    assert forall t :: Src(h', t) == Src(h, t) && Targets(h', t) == Targets(h, t) && Fuid(h', t) == Fuid(h, t) by {
      forall t ensures Src(h', t) == Src(h, t) && Targets(h', t) == Targets(h, t) && Fuid(h', t) == Fuid(h, t) {
        if t in h.tensorOf {
          assert h'.tensorOf[t].(dims := []) == h.tensorOf[t].(dims := []);
        }
      }
    }
    assert forall o :: Inputs(h', o) == Inputs(h, o) && Outputs(h', o) == Outputs(h, o) &&
                       Preds(h', o) == Preds(h, o) && Succs(h', o) == Succs(h, o) by {
      forall o ensures Inputs(h', o) == Inputs(h, o) && Outputs(h', o) == Outputs(h, o) &&
                       Preds(h', o) == Preds(h, o) && Succs(h', o) == Succs(h, o) {
        if o in h.opOf {
          assert Unrecorded(h'.opOf[o]) == Unrecorded(h.opOf[o]);
        }
      }
    }
  }

  // ---------------------------------------------------------------------------
  // What shape inference achieves
  // ---------------------------------------------------------------------------

  /** With distinct family ids, reshaping a listed tensor gives it the shape, keeps every
      family id, and leaves the shape of every other tensor alone. */
  lemma ReshapeSets(h: Heap, tensors: seq<TensorId>, t: TensorId, shape: seq<nat>)
    requires FuidsDistinct(h, tensors) && t in tensors && t in h.tensorOf
    ensures Reshape(h, tensors, t, shape).Ok?
    ensures var h' := Reshape(h, tensors, t, shape).value;
      h'.tensorOf.Keys == h.tensorOf.Keys && (forall u :: Fuid(h', u) == Fuid(h, u)) &&
      Dims(h', t) == shape && (forall u :: u != t ==> Dims(h', u) == Dims(h, u))
  {
    FindOwnFuid(h, tensors, t);
  }

  /** From `h` to `h'` the first `i` outputs got their shapes, family ids stayed, and
      every tensor that is not an output kept its shape. */
  ghost predicate Reshaped(h: Heap, h': Heap, outs: seq<TensorId>, shapes: seq<seq<nat>>, i: nat)
    requires |shapes| == |outs| && i <= |outs|
  {
    h'.tensorOf.Keys == h.tensorOf.Keys && (forall t :: Fuid(h', t) == Fuid(h, t)) &&
    (forall m :: 0 <= m < i ==> Dims(h', outs[m]) == shapes[m]) &&
    (forall t :: t !in outs ==> Dims(h', t) == Dims(h, t))
  }

  /** Reshaping output `i - 1` after the first `i - 1` extends what was reshaped. */
  lemma ReshapedStep(h: Heap, h1: Heap, tensors: seq<TensorId>, outs: seq<TensorId>, shapes: seq<seq<nat>>, i: nat)
    requires |shapes| == |outs| && 0 < i <= |outs| && Unique(outs)
    requires FuidsDistinct(h, tensors) && outs[i - 1] in tensors && outs[i - 1] in h.tensorOf
    requires Reshaped(h, h1, outs, shapes, i - 1)
    ensures Reshape(h1, tensors, outs[i - 1], shapes[i - 1]).Ok?
    ensures Reshaped(h, Reshape(h1, tensors, outs[i - 1], shapes[i - 1]).value, outs, shapes, i)
  {
    var t := outs[i - 1];
    assert FuidsDistinct(h1, tensors) by {
      forall a, b | 0 <= a < b < |tensors| ensures Fuid(h1, tensors[a]) != Fuid(h1, tensors[b]) {
        assert Fuid(h1, tensors[a]) == Fuid(h, tensors[a]) && Fuid(h1, tensors[b]) == Fuid(h, tensors[b]);
      }
    }
    ReshapeSets(h1, tensors, t, shapes[i - 1]);
    var h2 := Reshape(h1, tensors, t, shapes[i - 1]).value;
    forall m | 0 <= m < i - 1 ensures Dims(h2, outs[m]) == shapes[m] {
      assert outs[m] != t;
    }
  }

  /** With distinct family ids and every output listed, reshaping the first `i` outputs
      gives each of them its inferred shape, keeps every family id, and leaves the shape
      of every tensor that is not an output alone. */
  lemma {:induction false} ReshapeAllSets(h: Heap, tensors: seq<TensorId>, outs: seq<TensorId>, shapes: seq<seq<nat>>, i: nat)
    requires |shapes| == |outs| && i <= |outs| && Unique(outs)
    requires FuidsDistinct(h, tensors) && forall t :: t in outs ==> t in tensors && t in h.tensorOf
    ensures ReshapeAll(h, tensors, outs, shapes, i).Ok?
    ensures Reshaped(h, ReshapeAll(h, tensors, outs, shapes, i).value, outs, shapes, i)
    decreases i
  {
    if i > 0 {
      ReshapeAllSets(h, tensors, outs, shapes, i - 1);
      var h1 := ReshapeAll(h, tensors, outs, shapes, i - 1).value;
      ReshapedStep(h, h1, tensors, outs, shapes, i);
    }
  }

  /** One operator's shape inference, on a graph whose listed tensors have distinct family
      ids and which lists the operator's outputs (no output twice), succeeds exactly when
      its inference does, and then gives each output the inferred shape and leaves every
      other tensor's shape alone. */
  lemma InferStepSetsOutputs(h: Heap, tensors: seq<TensorId>, o: OpId)
    requires FuidsDistinct(h, tensors) && Unique(Outputs(h, o))
    requires forall t :: t in Outputs(h, o) ==> t in tensors && t in h.tensorOf
    ensures InferStep(h, tensors, o).Ok? <==> OpShapes(h, o).Ok? && |OpShapes(h, o).value.0| == |Outputs(h, o)|
    ensures InferStep(h, tensors, o).Ok? ==>
      forall m :: 0 <= m < |Outputs(h, o)| ==> Dims(InferStep(h, tensors, o).value, Outputs(h, o)[m]) == OpShapes(h, o).value.0[m]
    ensures InferStep(h, tensors, o).Ok? ==>
      forall t :: t !in Outputs(h, o) ==> Dims(InferStep(h, tensors, o).value, t) == Dims(h, t)
  {
    if OpShapes(h, o).Ok? {
      var res := OpShapes(h, o).value;
      var h1 := RecordMnk(h, o, res.1);
      assert Outputs(h1, o) == Outputs(h, o) && h1.tensorOf == h.tensorOf;
      assert FuidsDistinct(h1, tensors);
      if |res.0| == |Outputs(h1, o)| {
        ReshapeAllSets(h1, tensors, Outputs(h1, o), res.0, |res.0|);
        assert Reshaped(h1, InferStep(h, tensors, o).value, Outputs(h, o), res.0, |res.0|);
      }
    }
  }

  /** Shape inference of a transpose with permutation [1, 0] on a 2 x 3 input reshapes its
      output to 3 x 2 and leaves the input alone. */
  lemma TransposeStepExample()
    ensures var h := Heap(map[0 := TensorNode(0, [2, 3], 4, None, [0]), 1 := TensorNode(1, [2, 3], 4, Some(0), [])],
                          map[0 := OpNode(Transpose([1, 0]), [0], [1], [], [])]);
      InferStep(h, [0, 1], 0).Ok? && Dims(InferStep(h, [0, 1], 0).value, 1) == [3, 2] &&
      Dims(InferStep(h, [0, 1], 0).value, 0) == [2, 3]
  {
    var h := Heap(map[0 := TensorNode(0, [2, 3], 4, None, [0]), 1 := TensorNode(1, [2, 3], 4, Some(0), [])],
                  map[0 := OpNode(Transpose([1, 0]), [0], [1], [], [])]);
    assert Dims(h, 0) == [2, 3] && h.opOf[0].inputs == [0];
    assert IsPermutation([1, 0], 2);
    assert Permute([2, 3], [1, 0]) == [3, 2];
    assert h.opOf[0].kind == Transpose([1, 0]);
    assert !(|h.opOf[0].inputs| < 1 || !IsPermutation([1, 0], |Dims(h, h.opOf[0].inputs[0])|));
    assert Permute(Dims(h, h.opOf[0].inputs[0]), [1, 0]) == [3, 2];
    assert OpShapes(h, 0) == Ok(([[3, 2]], None));
    assert Fuid(h, 0) == 0 && Fuid(h, 1) == 1;
    assert FuidsDistinct(h, [0, 1]) by {
      forall i, j | 0 <= i < j < 2 ensures Fuid(h, [0, 1][i]) != Fuid(h, [0, 1][j]) {
        assert i == 0 && j == 1;
      }
    }
    assert Outputs(h, 0) == [1];
    InferStepSetsOutputs(h, [0, 1], 0);
  }
}
