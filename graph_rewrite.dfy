/** The graph optimizer's two rewrite rules: erasing a transpose followed by its
    inverse, and folding a transpose that swaps the last two axes into a matrix
    multiply's transpose flags; when each applies, what each does to the graph,
    why repeating them must stop, and what the optimized graph is. */
module Rewrite {
  import opened Common
  import opened Permutations
  import opened GraphModel
  import TransposeOp
  import MatmulOp

  /** The graph's operator objects together with its tensor list and operator list. */
  datatype Net = Net(heap: Heap, tensors: seq<TensorId>, ops: seq<OpId>)

  /** The permutation of a transpose, or none for any other operator. */
  function Perm(h: Heap, o: OpId): seq<int>
  {
    if IsTranspose(h, o) then h.opOf[o].kind.perm else []
  }

  /** Every transpose has an input and an output, which the rules read without checking. */
  predicate Arity(h: Heap)
  {
    forall o :: o in h.opOf && h.opOf[o].kind.Transpose? ==> |h.opOf[o].inputs| >= 1 && |h.opOf[o].outputs| >= 1
  }

  /** The check of rule A: `p2[p1[i]] == i` for every position of `p1`. An entry of `p1`
      outside `p2` reads past the end of `p2`; here it counts as not inverse. */
  predicate InversePerms(p1: seq<int>, p2: seq<int>)
  {
    forall i :: 0 <= i < |p1| ==> 0 <= p1[i] < |p2| && p2[p1[i]] == i
  }

  // ---------------------------------------------------------------------------
  // Rule A: a transpose followed by its inverse
  // ---------------------------------------------------------------------------

  /** Rule A applies at `o`: it is a transpose whose first output has exactly one reader,
      that reader is a transpose too, and the two permutations are inverse. */
  predicate InverseAt(h: Heap, o: OpId)
    requires Arity(h)
  {
    IsTranspose(h, o) &&
    var out := Outputs(h, o)[0];
    |Targets(h, out)| == 1 && IsTranspose(h, Targets(h, out)[0]) &&
    InversePerms(Perm(h, o), Perm(h, Targets(h, out)[0]))
  }

  /** `c` reads `to` wherever it read `from`. */
  function ReplaceInput(h: Heap, c: OpId, from: TensorId, to: TensorId): Heap
  {
    if c in h.opOf then h.(opOf := h.opOf[c := h.opOf[c].(inputs := Replace(h.opOf[c].inputs, from, to))]) else h
  }

  /** Each reader in `cs`, in turn, reads `to` in place of `from`, and `to` lists it as a reader. */
  function Rewire(h: Heap, cs: seq<OpId>, from: TensorId, to: TensorId): Heap
    decreases |cs|
  {
    if |cs| == 0 then h
    else
      var c := cs[|cs| - 1];
      AddTarget(ReplaceInput(Rewire(h, cs[..|cs| - 1], from, to), c, from, to), to, c)
  }

  /** Rule A at `o`: the readers of the second transpose's output read the first
      transpose's input instead, and both transposes and both of their outputs leave
      the lists. The erased objects stay in the tables and in the target list of the
      surviving input. */
  function EraseInverse(n: Net, o: OpId): Net
    requires Arity(n.heap) && InverseAt(n.heap, o)
  {
    var h := n.heap;
    var out := Outputs(h, o)[0];
    var next := Targets(h, out)[0];
    var inT := Inputs(h, o)[0];
    var outT := Outputs(h, next)[0];
    Net(Rewire(h, Targets(h, outT), outT, inT),
        Without(Without(n.tensors, out), outT),
        Without(Without(n.ops, o), next))
  }

  // ---------------------------------------------------------------------------
  // Rule B: a last-two-axes transpose feeding a matrix multiply
  // ---------------------------------------------------------------------------

  /** Rule B applies to input `i` of `c`: `c` multiplies matrices and that input is
      written by a transpose that swaps the last two axes. */
  predicate FoldAt(h: Heap, c: OpId, i: nat)
  {
    IsMatMul(h, c) && i < |Inputs(h, c)| && Src(h, Inputs(h, c)[i]).Some? &&
    IsTranspose(h, Src(h, Inputs(h, c)[i]).value) &&
    TransposeOp.SwapsLastTwo(Perm(h, Src(h, Inputs(h, c)[i]).value))
  }

  /** Negates `transA` for input 0 and `transB` for input 1 of the multiply `c`. */
  function Flip(h: Heap, c: OpId, i: nat): Heap
    requires IsMatMul(h, c)
  {
    var k := h.opOf[c].kind;
    var k' := if i == 0 then k.(transA := !k.transA) else if i == 1 then k.(transB := !k.transB) else k;
    h.(opOf := h.opOf[c := h.opOf[c].(kind := k')])
  }

  /** Rule B at input `i` of `c`: the flag is negated, `c` reads the transpose's input
      in place of its output, which lists `c` as a reader, and the transpose and its
      output leave the lists. */
  function FoldTranspose(n: Net, c: OpId, i: nat): Net
    requires Arity(n.heap) && FoldAt(n.heap, c, i)
  {
    var t := Inputs(n.heap, c)[i];
    Net(FoldHeap(n.heap, c, i), Without(n.tensors, t), Without(n.ops, Src(n.heap, t).value))
  }

  /** The objects after rule B at input `i` of `c`. */
  function FoldHeap(h: Heap, c: OpId, i: nat): Heap
    requires Arity(h) && FoldAt(h, c, i)
  {
    var t := Inputs(h, c)[i];
    var inner := Inputs(h, Src(h, t).value)[0];
    AddTarget(ReplaceInput(Flip(h, c, i), c, t, inner), inner, c)
  }

  // ---------------------------------------------------------------------------
  // Where the optimizer looks first
  // ---------------------------------------------------------------------------

  /** Position of the first operator of `ops[k..]` at which rule A applies. */
  function FirstInverse(h: Heap, ops: seq<OpId>, k: nat): (r: Option<nat>)
    requires Arity(h) && k <= |ops|
    ensures r.Some? ==> k <= r.value < |ops| && InverseAt(h, ops[r.value])
    ensures r.Some? ==> forall j :: k <= j < r.value ==> !InverseAt(h, ops[j])
    ensures r.None? ==> forall j :: k <= j < |ops| ==> !InverseAt(h, ops[j])
    decreases |ops| - k
  {
    if k == |ops| then None
    else if InverseAt(h, ops[k]) then Some(k)
    else FirstInverse(h, ops, k + 1)
  }

  /** The first input of `c`, from input `i` on, at which rule B applies. */
  function FirstFoldInput(h: Heap, c: OpId, i: nat): (r: Option<nat>)
    requires i <= |Inputs(h, c)|
    ensures r.Some? ==> i <= r.value < |Inputs(h, c)| && FoldAt(h, c, r.value)
    ensures r.Some? ==> forall j: nat :: i <= j < r.value ==> !FoldAt(h, c, j)
    ensures r.None? ==> forall j: nat :: i <= j ==> !FoldAt(h, c, j)
    decreases |Inputs(h, c)| - i
  {
    if i == |Inputs(h, c)| then None
    else if FoldAt(h, c, i) then Some(i)
    else FirstFoldInput(h, c, i + 1)
  }

  /** The first operator of `ops[k..]`, paired with its first input, at which rule B applies. */
  function FirstFold(h: Heap, ops: seq<OpId>, k: nat): (r: Option<(nat, nat)>)
    requires k <= |ops|
    ensures r.Some? ==> k <= r.value.0 < |ops| && FoldAt(h, ops[r.value.0], r.value.1)
    ensures r.Some? ==> forall j, i: nat :: k <= j < r.value.0 ==> !FoldAt(h, ops[j], i)
    ensures r.Some? ==> forall i: nat :: i < r.value.1 ==> !FoldAt(h, ops[r.value.0], i)
    ensures r.None? ==> forall j, i: nat :: k <= j < |ops| ==> !FoldAt(h, ops[j], i)
    decreases |ops| - k
  {
    if k == |ops| then None
    else match FirstFoldInput(h, ops[k], 0)
      case Some(i) => Some((k, i))
      case None => FirstFold(h, ops, k + 1)
  }

  // ---------------------------------------------------------------------------
  // Why the optimizer stops
  // ---------------------------------------------------------------------------

  /** The writer of `t`, if any, ranks below `c`. */
  ghost predicate Before(h: Heap, rank: map<OpId, nat>, t: TensorId, c: OpId)
  {
    c in rank && (Src(h, t).Some? ==> Src(h, t).value in rank && rank[Src(h, t).value] < rank[c])
  }

  /** Each operator is the writer of its outputs. */
  predicate WritesOutputs(h: Heap)
  {
    forall o, t :: o in h.opOf && t in Outputs(h, o) && t in h.tensorOf ==> Src(h, t) == Some(o)
  }

  /** Along every input edge the writer ranks below the reader. */
  ghost predicate InputsBefore(h: Heap, rank: map<OpId, nat>)
  {
    forall o, t :: o in h.opOf && t in Inputs(h, o) ==> Before(h, rank, t, o)
  }

  /** Along every reader edge the writer ranks below the reader. */
  ghost predicate TargetsBefore(h: Heap, rank: map<OpId, nat>)
  {
    forall t, c :: t in h.tensorOf && c in Targets(h, t) ==> Before(h, rank, t, c)
  }

  /** `rank` orders the graph: every operator is ranked, each writes its outputs, and
      along every input and every reader edge the writer ranks below the reader. Such
      a graph has no cycle. */
  ghost predicate Ranked(h: Heap, rank: map<OpId, nat>)
  {
    h.opOf.Keys <= rank.Keys && WritesOutputs(h) && InputsBefore(h, rank) && TargetsBefore(h, rank)
  }

  /** One more than the rank of the tensor's writer; 0 for a tensor without one. */
  ghost function Height(h: Heap, rank: map<OpId, nat>, t: TensorId): nat
  {
    if Src(h, t).Some? && Src(h, t).value in rank then rank[Src(h, t).value] + 1 else 0
  }

  ghost function InputsWeight(h: Heap, rank: map<OpId, nat>, ts: seq<TensorId>): nat
    decreases |ts|
  {
    if |ts| == 0 then 0 else Height(h, rank, ts[0]) + InputsWeight(h, rank, ts[1..])
  }

  ghost function OpsWeight(h: Heap, rank: map<OpId, nat>, ops: seq<OpId>): nat
    decreases |ops|
  {
    if |ops| == 0 then 0 else InputsWeight(h, rank, Inputs(h, ops[0])) + OpsWeight(h, rank, ops[1..])
  }

  /** The sum, over the listed operators, of the heights of their inputs: rule B lowers it. */
  ghost function Weight(n: Net, rank: map<OpId, nat>): nat
  {
    OpsWeight(n.heap, rank, n.ops)
  }

  /** Replacing an input by a lower one lowers the weight of an input list, strictly
      when the input occurs. */
  lemma {:induction false} ReplaceLighter(h: Heap, rank: map<OpId, nat>, ts: seq<TensorId>, t: TensorId, u: TensorId)
    requires Height(h, rank, u) < Height(h, rank, t)
    ensures InputsWeight(h, rank, Replace(ts, t, u)) <= InputsWeight(h, rank, ts)
    ensures t in ts ==> InputsWeight(h, rank, Replace(ts, t, u)) < InputsWeight(h, rank, ts)
    decreases |ts|
  {
    if |ts| > 0 {
      assert Replace(ts, t, u)[1..] == Replace(ts[1..], t, u);
      ReplaceLighter(h, rank, ts[1..], t, u);
      if ts[0] != t {
        assert t in ts ==> t in ts[1..];
      }
    }
  }

  /** Erasing an operator from a list does not raise its weight. */
  lemma {:induction false} WithoutLighter(h: Heap, rank: map<OpId, nat>, ops: seq<OpId>, s: OpId)
    ensures OpsWeight(h, rank, Without(ops, s)) <= OpsWeight(h, rank, ops)
    decreases |ops|
  {
    if |ops| > 0 {
      WithoutLighter(h, rank, ops[1..], s);
      var rest := Without(ops[1..], s);
      if ops[0] != s {
        assert Without(ops, s) == [ops[0]] + rest;
        assert ([ops[0]] + rest)[1..] == rest;
      } else {
        assert Without(ops, s) == [] + rest == rest;
      }
    }
  }

  /** When the weights of all operators but `c` stay and that of `c` drops, the weight of
      a list drops, strictly when it holds `c`. */
  lemma {:induction false} OpsLighter(h: Heap, h': Heap, rank: map<OpId, nat>, ops: seq<OpId>, c: OpId)
    requires forall x :: x != c ==> InputsWeight(h', rank, Inputs(h', x)) == InputsWeight(h, rank, Inputs(h, x))
    requires InputsWeight(h', rank, Inputs(h', c)) < InputsWeight(h, rank, Inputs(h, c))
    ensures OpsWeight(h', rank, ops) <= OpsWeight(h, rank, ops)
    ensures c in ops ==> OpsWeight(h', rank, ops) < OpsWeight(h, rank, ops)
    decreases |ops|
  {
    if |ops| > 0 {
      OpsLighter(h, h', rank, ops[1..], c);
      if ops[0] != c {
        assert c in ops ==> c in ops[1..];
      }
    }
  }

  /** Heights depend on the writers only. */
  lemma {:induction false} SameHeights(h: Heap, h': Heap, rank: map<OpId, nat>, ts: seq<TensorId>)
    requires forall u :: Src(h', u) == Src(h, u)
    ensures InputsWeight(h', rank, ts) == InputsWeight(h, rank, ts)
    decreases |ts|
  {
    if |ts| > 0 {
      SameHeights(h, h', rank, ts[1..]);
    }
  }

  /** Redirecting the inputs of `c` to a tensor whose writer ranks below `c` keeps the
      ranking and the arity of transposes. */
  lemma ReplaceInputKeeps(h: Heap, rank: map<OpId, nat>, c: OpId, from: TensorId, to: TensorId)
    requires Ranked(h, rank) && Arity(h)
    requires c in h.opOf ==> Before(h, rank, to, c)
    ensures Ranked(ReplaceInput(h, c, from, to), rank) && Arity(ReplaceInput(h, c, from, to))
    ensures ReplaceInput(h, c, from, to).tensorOf == h.tensorOf
    ensures ReplaceInput(h, c, from, to).opOf.Keys == h.opOf.Keys
    ensures forall x :: x != c ==> Inputs(ReplaceInput(h, c, from, to), x) == Inputs(h, x)
    ensures forall x :: Outputs(ReplaceInput(h, c, from, to), x) == Outputs(h, x)
    ensures forall x :: IsTranspose(ReplaceInput(h, c, from, to), x) == IsTranspose(h, x)
    ensures forall x :: IsMatMul(ReplaceInput(h, c, from, to), x) == IsMatMul(h, x)
    ensures forall x :: Perm(ReplaceInput(h, c, from, to), x) == Perm(h, x)
    ensures Inputs(ReplaceInput(h, c, from, to), c) == Replace(Inputs(h, c), from, to)
  {
    var h' := ReplaceInput(h, c, from, to);
    if c in h.opOf {
      var n := h.opOf[c];
      assert h'.opOf == h.opOf[c := n.(inputs := Replace(n.inputs, from, to))];
      assert WritesOutputs(h') by {
        forall o, t | o in h'.opOf && t in Outputs(h', o) && t in h'.tensorOf ensures Src(h', t) == Some(o) {
          assert Outputs(h', o) == Outputs(h, o);
        }
      }
      assert InputsBefore(h', rank) by {
        forall o, t | o in h'.opOf && t in Inputs(h', o) ensures Before(h', rank, t, o) {
          if o == c && t == to {
          } else {
            assert t in Inputs(h, o);
          }
        }
      }
      assert TargetsBefore(h', rank) by {
        forall t, x | t in h'.tensorOf && x in Targets(h', t) ensures Before(h', rank, t, x) {
          assert Before(h, rank, t, x);
        }
      }
      assert Arity(h') by {
        forall o | o in h'.opOf && h'.opOf[o].kind.Transpose? ensures |h'.opOf[o].inputs| >= 1 && |h'.opOf[o].outputs| >= 1 {
          assert h'.opOf[o].kind == h.opOf[o].kind;
        }
      }
    }
  }

  /** Listing `c` as a reader of a tensor whose writer ranks below `c` keeps the ranking. */
  lemma AddTargetKeeps(h: Heap, rank: map<OpId, nat>, t: TensorId, c: OpId)
    requires Ranked(h, rank)
    requires t in h.tensorOf ==> Before(h, rank, t, c)
    ensures Ranked(AddTarget(h, t, c), rank)
    ensures AddTarget(h, t, c).opOf == h.opOf
    ensures AddTarget(h, t, c).tensorOf.Keys == h.tensorOf.Keys
    ensures forall u :: Src(AddTarget(h, t, c), u) == Src(h, u)
  {
    var h' := AddTarget(h, t, c);
    if t in h.tensorOf {
      var n := h.tensorOf[t];
      assert h'.tensorOf == h.tensorOf[t := n.(targets := n.targets + [c])];
      assert forall u :: Src(h', u) == Src(h, u);
      assert WritesOutputs(h') by {
        forall o, u | o in h'.opOf && u in Outputs(h', o) && u in h'.tensorOf ensures Src(h', u) == Some(o) {
          assert Src(h, u) == Some(o);
        }
      }
      assert InputsBefore(h', rank) by {
        forall o, u | o in h'.opOf && u in Inputs(h', o) ensures Before(h', rank, u, o) {
          assert Before(h, rank, u, o);
        }
      }
      assert TargetsBefore(h', rank) by {
        forall u, x | u in h'.tensorOf && x in Targets(h', u) ensures Before(h', rank, u, x) {
          if u == t && x == c {
          } else {
            assert x in Targets(h, u);
          }
        }
      }
    }
  }

  /** Negating a flag of a multiply keeps everything but that flag. */
  lemma FlipKeeps(h: Heap, rank: map<OpId, nat>, c: OpId, i: nat)
    requires Ranked(h, rank) && Arity(h) && IsMatMul(h, c)
    ensures Ranked(Flip(h, c, i), rank) && Arity(Flip(h, c, i))
    ensures Flip(h, c, i).tensorOf == h.tensorOf && Flip(h, c, i).opOf.Keys == h.opOf.Keys
    ensures forall x :: Inputs(Flip(h, c, i), x) == Inputs(h, x) && Outputs(Flip(h, c, i), x) == Outputs(h, x)
    ensures forall x :: IsTranspose(Flip(h, c, i), x) == IsTranspose(h, x)
    ensures forall x :: IsMatMul(Flip(h, c, i), x) == IsMatMul(h, x)
    ensures forall x :: Perm(Flip(h, c, i), x) == Perm(h, x)
  {
    var h' := Flip(h, c, i);
    assert forall x :: Inputs(h', x) == Inputs(h, x) && Outputs(h', x) == Outputs(h, x);
    assert WritesOutputs(h') by {
      forall o, u | o in h'.opOf && u in Outputs(h', o) && u in h'.tensorOf ensures Src(h', u) == Some(o) {
        assert Src(h, u) == Some(o);
      }
    }
    assert InputsBefore(h', rank) by {
      forall o, u | o in h'.opOf && u in Inputs(h', o) ensures Before(h', rank, u, o) {
        assert Before(h, rank, u, o);
      }
    }
    assert TargetsBefore(h', rank) by {
      forall u, x | u in h'.tensorOf && x in Targets(h', u) ensures Before(h', rank, u, x) {
        assert Before(h, rank, u, x);
      }
    }
    assert Arity(h') by {
      forall o | o in h'.opOf && h'.opOf[o].kind.Transpose? ensures |h'.opOf[o].inputs| >= 1 && |h'.opOf[o].outputs| >= 1 {
        assert o != c;
      }
    }
  }

  /** Rewiring readers that all rank above the writer of `to` keeps the ranking. */
  lemma {:induction false} RewireKeeps(h: Heap, rank: map<OpId, nat>, cs: seq<OpId>, from: TensorId, to: TensorId)
    requires Ranked(h, rank) && Arity(h)
    requires forall c :: c in cs ==> Before(h, rank, to, c)
    ensures Ranked(Rewire(h, cs, from, to), rank) && Arity(Rewire(h, cs, from, to))
    ensures Rewire(h, cs, from, to).tensorOf.Keys == h.tensorOf.Keys
    ensures Rewire(h, cs, from, to).opOf.Keys == h.opOf.Keys
    ensures forall u :: Src(Rewire(h, cs, from, to), u) == Src(h, u)
    decreases |cs|
  {
    if |cs| > 0 {
      var c := cs[|cs| - 1];
      var front := cs[..|cs| - 1];
      assert forall x :: x in front ==> x in cs;
      RewireKeeps(h, rank, front, from, to);
      var h1 := Rewire(h, front, from, to);
      assert Before(h1, rank, to, c) by {
        assert c in cs;
      }
      ReplaceInputKeeps(h1, rank, c, from, to);
      var h2 := ReplaceInput(h1, c, from, to);
      assert Before(h2, rank, to, c) by {
        assert Src(h2, to) == Src(h1, to);
      }
      AddTargetKeeps(h2, rank, to, c);
    }
  }

  /** Rule A keeps the ranking and the arity and erases at least the operator it fired at. */
  lemma EraseFacts(n: Net, o: OpId, rank: map<OpId, nat>)
    requires Ranked(n.heap, rank) && Arity(n.heap) && InverseAt(n.heap, o) && o in n.ops
    ensures Ranked(EraseInverse(n, o).heap, rank) && Arity(EraseInverse(n, o).heap)
    ensures |EraseInverse(n, o).ops| < |n.ops|
    ensures forall x :: x in EraseInverse(n, o).ops ==> x in n.ops
    ensures forall t :: t in EraseInverse(n, o).tensors ==> t in n.tensors
  {
    var h := n.heap;
    var out := Outputs(h, o)[0];
    var next := Targets(h, out)[0];
    var inT := Inputs(h, o)[0];
    var outT := Outputs(h, next)[0];
    assert Src(h, out) == Some(o);
    assert Before(h, rank, out, next);
    assert Before(h, rank, inT, o);
    forall c | c in Targets(h, outT) ensures Before(h, rank, inT, c) {
      assert Src(h, outT) == Some(next);
      assert Before(h, rank, outT, c);
    }
    RewireKeeps(h, rank, Targets(h, outT), outT, inT);
  }

  /** Rule B's edits keep the ranking and the arity; only the inputs of `c` change, and
      they trade the transpose's output for its input, whose writer ranks lower. */
  lemma FoldStep(h: Heap, c: OpId, i: nat, rank: map<OpId, nat>)
    requires Ranked(h, rank) && Arity(h) && FoldAt(h, c, i)
    ensures Ranked(FoldHeap(h, c, i), rank) && Arity(FoldHeap(h, c, i))
    ensures FoldHeap(h, c, i).tensorOf.Keys == h.tensorOf.Keys
    ensures forall u :: Src(FoldHeap(h, c, i), u) == Src(h, u)
    ensures forall x :: x != c ==> Inputs(FoldHeap(h, c, i), x) == Inputs(h, x)
    ensures Inputs(FoldHeap(h, c, i), c) ==
      Replace(Inputs(h, c), Inputs(h, c)[i], Inputs(h, Src(h, Inputs(h, c)[i]).value)[0])
    ensures Height(h, rank, Inputs(h, Src(h, Inputs(h, c)[i]).value)[0]) < Height(h, rank, Inputs(h, c)[i])
  {
    var t := Inputs(h, c)[i];
    var s := Src(h, t).value;
    var inner := Inputs(h, s)[0];
    assert Before(h, rank, t, c);
    assert Before(h, rank, inner, s);
    FlipKeeps(h, rank, c, i);
    var h1 := Flip(h, c, i);
    ReplaceInputKeeps(h1, rank, c, t, inner);
    var h2 := ReplaceInput(h1, c, t, inner);
    AddTargetKeeps(h2, rank, inner, c);
  }

  /** Rule B does not lengthen the operator list and strictly lowers the weight. */
  lemma FoldFacts(n: Net, c: OpId, i: nat, rank: map<OpId, nat>)
    requires Ranked(n.heap, rank) && Arity(n.heap) && FoldAt(n.heap, c, i) && c in n.ops
    ensures Ranked(FoldTranspose(n, c, i).heap, rank) && Arity(FoldTranspose(n, c, i).heap)
    ensures |FoldTranspose(n, c, i).ops| <= |n.ops|
    ensures Weight(FoldTranspose(n, c, i), rank) < Weight(n, rank)
    ensures forall x :: x in FoldTranspose(n, c, i).ops ==> x in n.ops
    ensures forall t :: t in FoldTranspose(n, c, i).tensors ==> t in n.tensors
  {
    var h := n.heap;
    var t := Inputs(h, c)[i];
    var s := Src(h, t).value;
    var inner := Inputs(h, s)[0];
    FoldStep(h, c, i, rank);
    var h3 := FoldHeap(h, c, i);
    assert h3.tensorOf.Keys == h.tensorOf.Keys;
    forall x ensures InputsWeight(h3, rank, Inputs(h3, x)) == InputsWeight(h, rank, Inputs(h3, x)) {
      SameHeights(h, h3, rank, Inputs(h3, x));
    }
    ReplaceLighter(h, rank, Inputs(h, c), t, inner);
    OpsLighter(h, h3, rank, n.ops, c);
    WithoutLighter(h3, rank, n.ops, s);
  }

  // ---------------------------------------------------------------------------
  // The optimized graph
  // ---------------------------------------------------------------------------

  /** The graph once the optimizer has applied, again and again, rule A at the first
      operator where it applies, or else rule B at the first multiply and input where
      it applies, until neither applies anywhere. */
  ghost function Optimized(n: Net, rank: map<OpId, nat>): (r: Net)
    requires Ranked(n.heap, rank) && Arity(n.heap)
    ensures Ranked(r.heap, rank) && Arity(r.heap)
    ensures FirstInverse(r.heap, r.ops, 0).None? && FirstFold(r.heap, r.ops, 0).None?
    ensures |r.ops| <= |n.ops|
    ensures forall x :: x in r.ops ==> x in n.ops
    ensures forall t :: t in r.tensors ==> t in n.tensors
    decreases |n.ops|, Weight(n, rank)
  {
    match FirstInverse(n.heap, n.ops, 0)
    case Some(k) =>
      EraseFacts(n, n.ops[k], rank);
      Optimized(EraseInverse(n, n.ops[k]), rank)
    case None =>
      match FirstFold(n.heap, n.ops, 0)
      case Some(p) =>
        FoldFacts(n, n.ops[p.0], p.1, rank);
        Optimized(FoldTranspose(n, n.ops[p.0], p.1), rank)
      case None => n
  }

  /** In the optimized graph neither rule applies at any listed operator. */
  lemma OptimizedIsFixpoint(n: Net, rank: map<OpId, nat>)
    requires Ranked(n.heap, rank) && Arity(n.heap)
    ensures forall o :: o in Optimized(n, rank).ops ==> !InverseAt(Optimized(n, rank).heap, o)
    ensures forall c, i: nat :: c in Optimized(n, rank).ops ==> !FoldAt(Optimized(n, rank).heap, c, i)
  {
    var r := Optimized(n, rank);
    forall o | o in r.ops ensures !InverseAt(r.heap, o) {
      var j :| 0 <= j < |r.ops| && r.ops[j] == o;
    }
    forall c, i: nat | c in r.ops ensures !FoldAt(r.heap, c, i) {
      var j :| 0 <= j < |r.ops| && r.ops[j] == c;
    }
  }

  /** Optimizing an optimized graph changes nothing. */
  lemma OptimizeIdempotent(n: Net, rank: map<OpId, nat>)
    requires Ranked(n.heap, rank) && Arity(n.heap)
    ensures Optimized(Optimized(n, rank), rank) == Optimized(n, rank)
  {
    var r := Optimized(n, rank);
    assert FirstInverse(r.heap, r.ops, 0).None? && FirstFold(r.heap, r.ops, 0).None?;
  }

  // ---------------------------------------------------------------------------
  // The rules leave shapes alone
  // ---------------------------------------------------------------------------

  /** The transpose `o` holds a permutation of its input's axes, and its output has the
      permuted input shape. */
  predicate ShapedBy(h: Heap, o: OpId)
    requires Arity(h) && IsTranspose(h, o)
  {
    IsPermutation(Perm(h, o), |Dims(h, Inputs(h, o)[0])|) &&
    Dims(h, Outputs(h, o)[0]) == Permute(Dims(h, Inputs(h, o)[0]), Perm(h, o))
  }

  /** Where rule A fires on two shaped transposes, the second one's output has the first
      one's input shape, so its readers see the same shape after they are redirected. */
  lemma InverseKeepsShapes(h: Heap, o: OpId)
    requires Arity(h) && InverseAt(h, o)
    requires ShapedBy(h, o) && ShapedBy(h, Targets(h, Outputs(h, o)[0])[0])
    requires Inputs(h, Targets(h, Outputs(h, o)[0])[0])[0] == Outputs(h, o)[0]
    ensures Dims(h, Outputs(h, Targets(h, Outputs(h, o)[0])[0])[0]) == Dims(h, Inputs(h, o)[0])
  {
    var next := Targets(h, Outputs(h, o)[0])[0];
    var dims := Dims(h, Inputs(h, o)[0]);
    TransposeOp.InversePermutesBack(dims, Perm(h, o), Perm(h, next));
  }

  /** What a multiply's shape inference gives on its current input shapes and flags. */
  function MatInfer(h: Heap, c: OpId): Result<MatmulOp.Inferred>
    requires IsMatMul(h, c) && |Inputs(h, c)| == 2
  {
    var k := h.opOf[c].kind;
    MatmulOp.Infer(Dims(h, Inputs(h, c)[0]), Dims(h, Inputs(h, c)[1]), k.transA, k.transB)
  }

  /** Where rule B folds a shaped last-two-axes transpose into a multiply that reads its
      output once, the multiply's inferred shape and m, n, k stay the same. */
  lemma FoldKeepsShape(h: Heap, c: OpId, i: nat)
    requires Arity(h) && FoldAt(h, c, i) && |Inputs(h, c)| == 2
    requires ShapedBy(h, Src(h, Inputs(h, c)[i]).value)
    requires Outputs(h, Src(h, Inputs(h, c)[i]).value)[0] == Inputs(h, c)[i]
    requires Inputs(h, c)[1 - i] != Inputs(h, c)[i]
    ensures IsMatMul(FoldHeap(h, c, i), c) && |Inputs(FoldHeap(h, c, i), c)| == 2
    ensures MatInfer(FoldHeap(h, c, i), c) == MatInfer(h, c)
  {
    var t := Inputs(h, c)[i];
    var s := Src(h, t).value;
    var inner := Inputs(h, s)[0];
    var h' := FoldHeap(h, c, i);
    var k := h.opOf[c].kind;
    TransposeOp.SwapPermutes(Dims(h, inner), Perm(h, s));
    assert Dims(h, t) == TransposeOp.SwapLastTwo(Dims(h, inner));
    var ins' := Replace(Inputs(h, c), t, inner);
    assert Inputs(h', c) == ins';
    assert forall u :: Dims(h', u) == Dims(h, u);
    if i == 0 {
      assert ins' == [inner, Inputs(h, c)[1]];
      assert h'.opOf[c].kind == k.(transA := !k.transA);
      MatmulOp.SwapFlipsTransA(Dims(h, inner), Dims(h, Inputs(h, c)[1]), k.transA, k.transB);
    } else {
      assert ins' == [Inputs(h, c)[0], inner];
      assert h'.opOf[c].kind == k.(transB := !k.transB);
      MatmulOp.SwapFlipsTransB(Dims(h, Inputs(h, c)[0]), Dims(h, inner), k.transA, k.transB);
    }
  }

  /** Without a ranking the optimizer can run forever: a last-two-axes transpose that
      reads its own output feeds a multiply, and after rule B fires there, it applies
      there again, with the flag negated back and forth. */
  lemma SelfLoopRefires()
    ensures var h := Heap(map[0 := TensorNode(0, [2, 2], 4, Some(1), [0, 1]), 1 := TensorNode(1, [2, 2], 4, None, [0])],
                          map[0 := OpNode(MatMul(false, false, MatmulOp.Mnk(0, 0, 0)), [0, 1], [2], [], []),
                              1 := OpNode(Transpose([1, 0]), [0], [0], [], [])]);
      Arity(h) && FoldAt(h, 0, 0) && Arity(FoldHeap(h, 0, 0)) && FoldAt(FoldHeap(h, 0, 0), 0, 0) &&
      FoldHeap(h, 0, 0).opOf[0].kind.transA
  {
    var h := Heap(map[0 := TensorNode(0, [2, 2], 4, Some(1), [0, 1]), 1 := TensorNode(1, [2, 2], 4, None, [0])],
                  map[0 := OpNode(MatMul(false, false, MatmulOp.Mnk(0, 0, 0)), [0, 1], [2], [], []),
                      1 := OpNode(Transpose([1, 0]), [0], [0], [], [])]);
    assert Perm(h, 1) == [1, 0];
    var h' := FoldHeap(h, 0, 0);
    assert Replace([0, 1], 0, 0) == [0, 1];
    assert Inputs(h', 0) == [0, 1] && Src(h', 0) == Some(1) && Perm(h', 1) == [1, 0];
  }
}
