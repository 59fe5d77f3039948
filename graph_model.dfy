/** The objects of a computation graph, kept in tables and linked by integer ids:
    what each tensor and operator records, the list operations the graph applies
    to them, how an operator is wired in, and what the graph's validity check asks. */
module GraphModel {
  import opened Common
  import MatmulOp

  /** Identity of a tensor object. */
  type TensorId = nat
  /** Identity of an operator object. */
  type OpId = nat

  /** The closed set of operator kinds with their attributes; a MatMul also keeps the
      m, n, k its last shape inference recorded. */
  datatype OpKind =
    | MatMul(transA: bool, transB: bool, mnk: MatmulOp.Mnk)
    | Transpose(perm: seq<int>)
    | Concat(dim: int)

  /** A tensor: its family id, shape, element width in bytes, the operator that writes
      it (if any) and the operators that read it. */
  datatype TensorNode = TensorNode(fuid: nat, dims: seq<nat>, elemSize: nat, source: Option<OpId>, targets: seq<OpId>)

  /** An operator: its kind, operand lists and its neighbours in the graph. */
  datatype OpNode = OpNode(kind: OpKind, inputs: seq<TensorId>, outputs: seq<TensorId>, preds: seq<OpId>, succs: seq<OpId>)

  /** Every tensor and operator object the graph's pointers reach; an id without an
      entry stands for a null pointer. */
  datatype Heap = Heap(tensorOf: map<TensorId, TensorNode>, opOf: map<OpId, OpNode>)

  function Src(h: Heap, t: TensorId): Option<OpId>
  {
    if t in h.tensorOf then h.tensorOf[t].source else None
  }

  function Targets(h: Heap, t: TensorId): seq<OpId>
  {
    if t in h.tensorOf then h.tensorOf[t].targets else []
  }

  function Dims(h: Heap, t: TensorId): seq<nat>
  {
    if t in h.tensorOf then h.tensorOf[t].dims else []
  }

  function Fuid(h: Heap, t: TensorId): nat
  {
    if t in h.tensorOf then h.tensorOf[t].fuid else 0
  }

  /** Size of the tensor's data: element count times element width. */
  function Bytes(h: Heap, t: TensorId): nat
  {
    if t in h.tensorOf then Product(h.tensorOf[t].dims) * h.tensorOf[t].elemSize else 0
  }

  function Inputs(h: Heap, o: OpId): seq<TensorId>
  {
    if o in h.opOf then h.opOf[o].inputs else []
  }

  function Outputs(h: Heap, o: OpId): seq<TensorId>
  {
    if o in h.opOf then h.opOf[o].outputs else []
  }

  function Preds(h: Heap, o: OpId): seq<OpId>
  {
    if o in h.opOf then h.opOf[o].preds else []
  }

  function Succs(h: Heap, o: OpId): seq<OpId>
  {
    if o in h.opOf then h.opOf[o].succs else []
  }

  predicate IsTranspose(h: Heap, o: OpId)
  {
    o in h.opOf && h.opOf[o].kind.Transpose?
  }

  predicate IsMatMul(h: Heap, o: OpId)
  {
    o in h.opOf && h.opOf[o].kind.MatMul?
  }

  // ---------------------------------------------------------------------------
  // List operations
  // ---------------------------------------------------------------------------

  /** `s` with every occurrence of `x` erased, the rest in order. */
  function Without(s: seq<nat>, x: nat): (r: seq<nat>)
    ensures x !in r
    ensures forall y :: y != x ==> (y in r <==> y in s)
    ensures |r| <= |s| && (x in s ==> |r| < |s|)
  {
    if |s| == 0 then []
    else (if s[0] == x then [] else [s[0]]) + Without(s[1..], x)
  }

  /** `s` with every occurrence of `from` replaced by `to`. */
  function Replace(s: seq<nat>, from: nat, to: nat): (r: seq<nat>)
    ensures |r| == |s|
    ensures forall y :: y in r ==> y in s || y == to
    ensures from != to ==> from !in r
  {
    seq(|s|, i requires 0 <= i < |s| => if s[i] == from then to else s[i])
  }

  /** The entries of a list, as a set. */
  function Items(s: seq<nat>): set<nat>
  {
    set x | x in s
  }

  predicate Unique(s: seq<nat>)
  {
    forall i, j :: 0 <= i < j < |s| ==> s[i] != s[j]
  }

  /** A list has at most as many distinct entries as it is long, and exactly as many
      when no entry repeats. */
  lemma {:induction false} ItemsCard(s: seq<nat>)
    ensures |Items(s)| <= |s|
    ensures |Items(s)| == |s| <==> Unique(s)
  {
    if |s| > 0 {
      var k := |s| - 1;
      var front, last := s[..k], s[k];
      ItemsCard(front);
      assert s == front + [last];
      assert Items(s) == Items(front) + {last};
      if last in front {
        assert Items(s) == Items(front);
        var j :| 0 <= j < k && front[j] == last;
        assert s[j] == s[k];
      } else {
        assert |Items(s)| == |Items(front)| + 1;
        assert Unique(s) <==> Unique(front) by {
          if Unique(front) {
            forall i, j | 0 <= i < j < |s| ensures s[i] != s[j] {
              if j == k { assert s[i] == front[i]; } else { assert s[i] == front[i] && s[j] == front[j]; }
            }
          }
          if Unique(s) {
            forall i, j | 0 <= i < j < |front| ensures front[i] != front[j] {
              assert front[i] == s[i] && front[j] == s[j];
            }
          }
        }
      }
    }
  }

  lemma SubsetCardLe(a: set<nat>, b: set<nat>)
    requires a <= b
    ensures |a| <= |b|
  {
    assert b == a + (b - a);
    assert a * (b - a) == {};
  }

  lemma SubsetCard(a: set<nat>, b: set<nat>)
    requires a <= b && |b| <= |a|
    ensures a == b
  {
    assert b == a + (b - a);
    assert a * (b - a) == {};
    assert b - a == {};
  }

  /** Each entry of a list without repeats occurs in it once. */
  lemma {:induction false} UniqueCount(s: seq<nat>, x: nat)
    requires Unique(s)
    ensures multiset(s)[x] == if x in s then 1 else 0
  {
    if |s| > 0 {
      var k := |s| - 1;
      var front := s[..k];
      assert s == front + [s[k]];
      assert Unique(front) by {
        forall i, j | 0 <= i < j < |front| ensures front[i] != front[j] {
          assert front[i] == s[i] && front[j] == s[j];
        }
      }
      UniqueCount(front, x);
      assert s[k] !in front by {
        forall j | 0 <= j < k ensures front[j] != s[k] {
          assert front[j] == s[j];
        }
      }
    }
  }

  /** A list without repeats that draws its entries from `t` and is at least as long as `t`
      holds the same entries as `t`, each as often, and then `t` has no repeats either. */
  lemma Rearranged(s: seq<nat>, t: seq<nat>)
    requires Unique(s) && |t| <= |s|
    requires forall x :: x in s ==> x in t
    ensures Unique(t) && |s| == |t| && multiset(s) == multiset(t)
  {
    ItemsCard(s);
    ItemsCard(t);
    assert Items(s) <= Items(t);
    SubsetCardLe(Items(s), Items(t));
    SubsetCard(Items(s), Items(t));
    forall x ensures multiset(s)[x] == multiset(t)[x] {
      UniqueCount(s, x);
      UniqueCount(t, x);
      assert x in s <==> x in Items(s);
    }
    assert multiset(s) == multiset(t);
  }

  /** A list without repeats whose entries all occur in `t` is no longer than `t`. */
  lemma UniqueShorter(s: seq<nat>, t: seq<nat>)
    requires Unique(s)
    requires forall x :: x in s ==> x in t
    ensures |s| <= |t|
  {
    ItemsCard(s);
    ItemsCard(t);
    assert Items(s) <= Items(t);
    SubsetCardLe(Items(s), Items(t));
  }

  // ---------------------------------------------------------------------------
  // Field updates on the objects
  // ---------------------------------------------------------------------------

  /** `t` lists `o` as one more reader. */
  function AddTarget(h: Heap, t: TensorId, o: OpId): Heap
  {
    if t in h.tensorOf
    then h.(tensorOf := h.tensorOf[t := h.tensorOf[t].(targets := h.tensorOf[t].targets + [o])])
    else h
  }

  function SetSource(h: Heap, t: TensorId, o: OpId): Heap
  {
    if t in h.tensorOf
    then h.(tensorOf := h.tensorOf[t := h.tensorOf[t].(source := Some(o))])
    else h
  }

  function AddSucc(h: Heap, p: OpId, o: OpId): Heap
  {
    if p in h.opOf
    then h.(opOf := h.opOf[p := h.opOf[p].(succs := h.opOf[p].succs + [o])])
    else h
  }

  function AddPred(h: Heap, o: OpId, p: OpId): Heap
  {
    if o in h.opOf
    then h.(opOf := h.opOf[o := h.opOf[o].(preds := h.opOf[o].preds + [p])])
    else h
  }

  // ---------------------------------------------------------------------------
  // Wiring an operator into the graph
  // ---------------------------------------------------------------------------

  /** One input of the new operator `o`: the tensor lists `o` as a reader, and the
      tensor's writer, if any, and `o` become neighbours. */
  function LinkInput(h: Heap, o: OpId, t: TensorId): Heap
  {
    if t !in h.tensorOf then h
    else
      var h1 := AddTarget(h, t, o);
      match Src(h1, t)
      case None => h1
      case Some(p) => AddPred(AddSucc(h1, p, o), o, p)
  }

  function LinkInputs(h: Heap, o: OpId, ts: seq<TensorId>): Heap
    decreases |ts|
  {
    if |ts| == 0 then h else LinkInputs(LinkInput(h, o, ts[0]), o, ts[1..])
  }

  /** `o` writes a tensor read by the operators `cs`: each becomes its successor. */
  function LinkReaders(h: Heap, o: OpId, cs: seq<OpId>): Heap
    decreases |cs|
  {
    if |cs| == 0 then h else LinkReaders(AddSucc(AddPred(h, cs[0], o), o, cs[0]), o, cs[1..])
  }

  /** One output of `o`: `o` becomes its writer and the neighbour of its readers. */
  function LinkOutput(h: Heap, o: OpId, t: TensorId): Heap
  {
    if t !in h.tensorOf then h
    else
      var h1 := SetSource(h, t, o);
      LinkReaders(h1, o, Targets(h1, t))
  }

  function LinkOutputs(h: Heap, o: OpId, ts: seq<TensorId>): Heap
    decreases |ts|
  {
    if |ts| == 0 then h else LinkOutputs(LinkOutput(h, o, ts[0]), o, ts[1..])
  }

  /** The heap once the operator object `o` exists and every input, then every output,
      has been linked. */
  function Connect(h: Heap, o: OpId, node: OpNode): Heap
  {
    var h0 := h.(opOf := h.opOf[o := node]);
    LinkOutputs(LinkInputs(h0, o, node.inputs), o, node.outputs)
  }

  /** `b` extends list `a` by entries drawn from `ok`. */
  predicate ListGrows(a: seq<nat>, b: seq<nat>, ok: set<nat>)
  {
    a <= b && forall c :: c in b ==> c in a || c in ok
  }

  predicate TensorGrows(a: TensorNode, b: TensorNode, ok: set<OpId>)
  {
    a.(targets := [], source := None) == b.(targets := [], source := None) && ListGrows(a.targets, b.targets, ok)
  }

  predicate OpGrows(a: OpNode, b: OpNode, ok: set<OpId>)
  {
    a.(preds := [], succs := []) == b.(preds := [], succs := []) &&
    ListGrows(a.preds, b.preds, ok) && ListGrows(a.succs, b.succs, ok)
  }

  /** From `h` to `h'` only edge lists grew, by appending entries drawn from `ok`, and
      writers may have changed; the object tables and every other field are unchanged. */
  predicate GrowsWithin(h: Heap, h': Heap, ok: set<OpId>)
  {
    h'.tensorOf.Keys == h.tensorOf.Keys && h'.opOf.Keys == h.opOf.Keys &&
    (forall t :: t in h.tensorOf ==> TensorGrows(h.tensorOf[t], h'.tensorOf[t], ok)) &&
    (forall x :: x in h.opOf ==> OpGrows(h.opOf[x], h'.opOf[x], ok))
  }

  lemma ListGrowsTrans(a: seq<nat>, b: seq<nat>, c: seq<nat>, ok: set<nat>)
    requires ListGrows(a, b, ok) && ListGrows(b, c, ok)
    ensures ListGrows(a, c, ok)
  {
    assert a == b[..|a|] && b == c[..|b|];
    assert c[..|b|][..|a|] == c[..|a|];
  }

  lemma GrowsTrans(h1: Heap, h2: Heap, h3: Heap, ok: set<OpId>)
    requires GrowsWithin(h1, h2, ok) && GrowsWithin(h2, h3, ok)
    ensures GrowsWithin(h1, h3, ok)
  {
    forall t | t in h1.tensorOf ensures TensorGrows(h1.tensorOf[t], h3.tensorOf[t], ok) {
      ListGrowsTrans(h1.tensorOf[t].targets, h2.tensorOf[t].targets, h3.tensorOf[t].targets, ok);
    }
    forall x | x in h1.opOf ensures OpGrows(h1.opOf[x], h3.opOf[x], ok) {
      ListGrowsTrans(h1.opOf[x].preds, h2.opOf[x].preds, h3.opOf[x].preds, ok);
      ListGrowsTrans(h1.opOf[x].succs, h2.opOf[x].succs, h3.opOf[x].succs, ok);
    }
  }

  lemma GrowsRefl(h: Heap, ok: set<OpId>)
    ensures GrowsWithin(h, h, ok)
  {
    forall t | t in h.tensorOf ensures TensorGrows(h.tensorOf[t], h.tensorOf[t], ok) {
    }
    forall x | x in h.opOf ensures OpGrows(h.opOf[x], h.opOf[x], ok) {
    }
  }

  lemma AddTargetGrows(h: Heap, t: TensorId, o: OpId, ok: set<OpId>)
    requires o in ok
    ensures GrowsWithin(h, AddTarget(h, t, o), ok)
    ensures t in h.tensorOf ==> o in Targets(AddTarget(h, t, o), t)
    ensures forall u :: Src(AddTarget(h, t, o), u) == Src(h, u)
  {
    GrowsRefl(h, ok);
    if t in h.tensorOf {
      var n := h.tensorOf[t];
      assert TensorGrows(n, n.(targets := n.targets + [o]), ok);
    }
  }

  lemma SetSourceGrows(h: Heap, t: TensorId, o: OpId, ok: set<OpId>)
    ensures GrowsWithin(h, SetSource(h, t, o), ok)
    ensures forall u :: u != t ==> Src(SetSource(h, t, o), u) == Src(h, u)
    ensures t in h.tensorOf ==> Src(SetSource(h, t, o), t) == Some(o)
    ensures Targets(SetSource(h, t, o), t) == Targets(h, t)
  {
    GrowsRefl(h, ok);
    if t in h.tensorOf {
      var n := h.tensorOf[t];
      assert TensorGrows(n, n.(source := Some(o)), ok);
    }
  }

  lemma AddSuccGrows(h: Heap, p: OpId, o: OpId, ok: set<OpId>)
    requires o in ok
    ensures GrowsWithin(h, AddSucc(h, p, o), ok)
    ensures p in h.opOf ==> o in Succs(AddSucc(h, p, o), p)
    ensures forall u :: Src(AddSucc(h, p, o), u) == Src(h, u)
  {
    GrowsRefl(h, ok);
    if p in h.opOf {
      var n := h.opOf[p];
      assert OpGrows(n, n.(succs := n.succs + [o]), ok);
    }
  }

  lemma AddPredGrows(h: Heap, o: OpId, p: OpId, ok: set<OpId>)
    requires p in ok
    ensures GrowsWithin(h, AddPred(h, o, p), ok)
    ensures o in h.opOf ==> p in Preds(AddPred(h, o, p), o)
    ensures forall u :: Src(AddPred(h, o, p), u) == Src(h, u)
  {
    GrowsRefl(h, ok);
    if o in h.opOf {
      var n := h.opOf[o];
      assert OpGrows(n, n.(preds := n.preds + [p]), ok);
    }
  }

  /** `p` and `c` are neighbours: `c` is a successor of `p` and `p` a predecessor of `c`. */
  predicate Linked(h: Heap, p: OpId, c: OpId)
  {
    c in Succs(h, p) && p in Preds(h, c)
  }

  /** `c` is listed as a reader of `t`. */
  predicate Reads(h: Heap, t: TensorId, c: OpId)
  {
    c in Targets(h, t)
  }

  /** Edges survive growth. */
  lemma KeepsLinked(h: Heap, h': Heap, ok: set<OpId>, p: OpId, c: OpId)
    requires GrowsWithin(h, h', ok) && Linked(h, p, c)
    ensures Linked(h', p, c)
  {
    assert OpGrows(h.opOf[p], h'.opOf[p], ok);
    assert OpGrows(h.opOf[c], h'.opOf[c], ok);
  }

  lemma KeepsReads(h: Heap, h': Heap, ok: set<OpId>, t: TensorId, c: OpId)
    requires GrowsWithin(h, h', ok) && Reads(h, t, c)
    ensures Reads(h', t, c)
  {
    assert TensorGrows(h.tensorOf[t], h'.tensorOf[t], ok);
  }

  /** Under growth an operator keeps its kind and operands, and its neighbour lists
      only gain entries from `ok`. */
  lemma OpKept(h: Heap, h': Heap, ok: set<OpId>, x: OpId)
    requires GrowsWithin(h, h', ok)
    ensures (x in h'.opOf <==> x in h.opOf) && Inputs(h', x) == Inputs(h, x) && Outputs(h', x) == Outputs(h, x)
    ensures x in h.opOf ==> h'.opOf[x].kind == h.opOf[x].kind
    ensures forall p :: p in Preds(h', x) ==> p in Preds(h, x) || p in ok
    ensures forall p :: p in Succs(h', x) ==> p in Succs(h, x) || p in ok
  {
    if x in h.opOf {
      assert OpGrows(h.opOf[x], h'.opOf[x], ok);
    }
  }

  /** Under growth a tensor keeps its identity, shape and width, and its reader list
      only gains entries from `ok`. */
  lemma TensorKept(h: Heap, h': Heap, ok: set<OpId>, t: TensorId)
    requires GrowsWithin(h, h', ok)
    ensures (t in h'.tensorOf <==> t in h.tensorOf) && Fuid(h', t) == Fuid(h, t)
    ensures Dims(h', t) == Dims(h, t) && Bytes(h', t) == Bytes(h, t)
    ensures Targets(h, t) <= Targets(h', t)
    ensures forall c :: c in Targets(h', t) ==> c in Targets(h, t) || c in ok
  {
    if t in h.tensorOf {
      assert TensorGrows(h.tensorOf[t], h'.tensorOf[t], ok);
    }
  }

  /** Sources only change through `SetSource`: every other update keeps them. */
  ghost predicate SameSources(h: Heap, h': Heap)
  {
    forall t :: Src(h', t) == Src(h, t)
  }

  lemma LinkInputStep(h: Heap, o: OpId, t: TensorId, ok: set<OpId>)
    requires o in ok
    requires Src(h, t).Some? ==> Src(h, t).value in ok
    ensures GrowsWithin(h, LinkInput(h, o, t), ok) && SameSources(h, LinkInput(h, o, t))
    ensures t in h.tensorOf ==> Reads(LinkInput(h, o, t), t, o)
    ensures t in h.tensorOf && Src(h, t).Some? && Src(h, t).value in h.opOf && o in h.opOf ==>
      Linked(LinkInput(h, o, t), Src(h, t).value, o)
  {
    if t in h.tensorOf {
      var h1 := AddTarget(h, t, o);
      AddTargetGrows(h, t, o, ok);
      match Src(h1, t)
      case None =>
      case Some(p) =>
        var h2 := AddSucc(h1, p, o);
        AddSuccGrows(h1, p, o, ok);
        AddPredGrows(h2, o, p, ok);
        GrowsTrans(h1, h2, AddPred(h2, o, p), ok);
        GrowsTrans(h, h1, AddPred(h2, o, p), ok);
        KeepsReads(h1, AddPred(h2, o, p), ok, t, o);
        if p in h.opOf && o in h.opOf {
          assert OpGrows(h2.opOf[p], AddPred(h2, o, p).opOf[p], ok);
        }
    } else {
      GrowsRefl(h, ok);
    }
  }

  /** Linking the inputs `ts` of `o` one by one. */
  lemma {:induction false} LinkInputsFacts(h: Heap, o: OpId, ts: seq<TensorId>, ok: set<OpId>)
    requires o in ok && o in h.opOf
    requires forall t :: t in ts && Src(h, t).Some? ==> Src(h, t).value in ok
    ensures GrowsWithin(h, LinkInputs(h, o, ts), ok) && SameSources(h, LinkInputs(h, o, ts))
    ensures forall t :: t in ts && t in h.tensorOf ==> Reads(LinkInputs(h, o, ts), t, o)
    ensures forall t, p :: t in ts && t in h.tensorOf && Src(h, t) == Some(p) && p in h.opOf ==>
      Linked(LinkInputs(h, o, ts), p, o)
    decreases |ts|
  {
    if |ts| == 0 {
      GrowsRefl(h, ok);
    } else {
      var h1 := LinkInput(h, o, ts[0]);
      LinkInputStep(h, o, ts[0], ok);
      LinkInputsFacts(h1, o, ts[1..], ok);
      var h2 := LinkInputs(h1, o, ts[1..]);
      GrowsTrans(h, h1, h2, ok);
      forall t | t in ts && t in h.tensorOf ensures Reads(h2, t, o) {
        if t == ts[0] {
          KeepsReads(h1, h2, ok, t, o);
        } else {
          assert t in ts[1..];
        }
      }
      forall t, p | t in ts && t in h.tensorOf && Src(h, t) == Some(p) && p in h.opOf
        ensures Linked(h2, p, o)
      {
        if t == ts[0] {
          KeepsLinked(h1, h2, ok, p, o);
        } else {
          assert t in ts[1..];
        }
      }
    }
  }

  /** `o` and each reader in `cs` become neighbours. */
  lemma {:induction false} LinkReadersFacts(h: Heap, o: OpId, cs: seq<OpId>, ok: set<OpId>)
    requires o in ok && o in h.opOf
    requires forall c :: c in cs ==> c in ok
    ensures GrowsWithin(h, LinkReaders(h, o, cs), ok) && SameSources(h, LinkReaders(h, o, cs))
    ensures forall c :: c in cs && c in h.opOf ==> Linked(LinkReaders(h, o, cs), o, c)
    decreases |cs|
  {
    if |cs| == 0 {
      GrowsRefl(h, ok);
    } else {
      var c0 := cs[0];
      var ha := AddPred(h, c0, o);
      var h1 := AddSucc(ha, o, c0);
      AddPredGrows(h, c0, o, ok);
      AddSuccGrows(ha, o, c0, ok);
      GrowsTrans(h, ha, h1, ok);
      if c0 in h.opOf {
        assert OpGrows(ha.opOf[c0], h1.opOf[c0], ok);
        assert Linked(h1, o, c0);
      }
      LinkReadersFacts(h1, o, cs[1..], ok);
      var h2 := LinkReaders(h1, o, cs[1..]);
      GrowsTrans(h, h1, h2, ok);
      forall c | c in cs && c in h.opOf ensures Linked(h2, o, c) {
        if c == c0 {
          KeepsLinked(h1, h2, ok, o, c);
        } else {
          assert c in cs[1..];
        }
      }
    }
  }

  lemma LinkOutputStep(h: Heap, h0: Heap, o: OpId, t: TensorId, ok: set<OpId>)
    requires o in ok && o in h.opOf && GrowsWithin(h0, h, ok)
    requires forall c :: c in Targets(h0, t) ==> c in ok
    ensures GrowsWithin(h, LinkOutput(h, o, t), ok)
    ensures forall u :: u != t ==> Src(LinkOutput(h, o, t), u) == Src(h, u)
    ensures t in h.tensorOf ==> Src(LinkOutput(h, o, t), t) == Some(o)
    ensures forall c :: c in Targets(h0, t) && c in h.opOf ==> Linked(LinkOutput(h, o, t), o, c)
  {
    if t in h.tensorOf {
      var h1 := SetSource(h, t, o);
      SetSourceGrows(h, t, o, ok);
      assert TensorGrows(h0.tensorOf[t], h.tensorOf[t], ok);
      assert forall c :: c in Targets(h1, t) ==> c in ok;
      LinkReadersFacts(h1, o, Targets(h1, t), ok);
      GrowsTrans(h, h1, LinkOutput(h, o, t), ok);
      forall c | c in Targets(h0, t) && c in h.opOf ensures Linked(LinkOutput(h, o, t), o, c) {
        KeepsReads(h0, h, ok, t, c);
      }
    } else {
      GrowsRefl(h, ok);
    }
  }

  /** Linking the outputs `ts` of `o` one by one. */
  lemma {:induction false} LinkOutputsFacts(h: Heap, h0: Heap, o: OpId, ts: seq<TensorId>, ok: set<OpId>)
    requires o in ok && o in h.opOf && GrowsWithin(h0, h, ok)
    requires forall t, c :: t in ts && c in Targets(h0, t) ==> c in ok
    ensures GrowsWithin(h, LinkOutputs(h, o, ts), ok)
    ensures forall u :: u !in ts ==> Src(LinkOutputs(h, o, ts), u) == Src(h, u)
    ensures forall t :: t in ts && t in h.tensorOf ==> Src(LinkOutputs(h, o, ts), t) == Some(o)
    ensures forall t, c :: t in ts && c in Targets(h0, t) && c in h.opOf ==> Linked(LinkOutputs(h, o, ts), o, c)
    decreases |ts|
  {
    if |ts| == 0 {
      GrowsRefl(h, ok);
    } else {
      var t0 := ts[0];
      var h1 := LinkOutput(h, o, t0);
      LinkOutputStep(h, h0, o, t0, ok);
      GrowsTrans(h0, h, h1, ok);
      LinkOutputsFacts(h1, h0, o, ts[1..], ok);
      var h2 := LinkOutputs(h1, o, ts[1..]);
      GrowsTrans(h, h1, h2, ok);
      forall t | t in ts && t in h.tensorOf ensures Src(h2, t) == Some(o) {
        if t !in ts[1..] {
          assert t == t0;
        }
      }
      forall t, c | t in ts && c in Targets(h0, t) && c in h.opOf ensures Linked(h2, o, c) {
        if t !in ts[1..] {
          assert t == t0;
          KeepsLinked(h1, h2, ok, o, c);
        }
      }
    }
  }

  /** What wiring in a new operator `o` does: each input lists `o` as a reader and its
      writer and `o` become neighbours; each output gets `o` as its writer and `o`
      becomes the neighbour of its readers. Nothing else changes: lists only grow,
      by `o` or by those neighbours, and every other tensor keeps its writer. */
  lemma ConnectLinks(h: Heap, o: OpId, node: OpNode, ok: set<OpId>)
    requires o !in h.opOf && o in ok && node.preds == [] && node.succs == []
    requires forall t :: t in node.inputs && Src(h, t).Some? ==> Src(h, t).value in ok
    requires forall t, c :: t in node.outputs && c in Targets(h, t) ==> c in ok
    ensures o in Connect(h, o, node).opOf
    ensures Connect(h, o, node).opOf[o].(preds := [], succs := []) == node
    ensures GrowsWithin(h.(opOf := h.opOf[o := node]), Connect(h, o, node), ok)
    ensures forall t :: t in node.inputs && t in h.tensorOf ==> Reads(Connect(h, o, node), t, o)
    ensures forall t, p :: t in node.inputs && t in h.tensorOf && Src(h, t) == Some(p) && p in h.opOf ==>
      Linked(Connect(h, o, node), p, o)
    ensures forall t :: t in node.outputs && t in h.tensorOf ==> Src(Connect(h, o, node), t) == Some(o)
    ensures forall t, c :: t in node.outputs && c in Targets(h, t) && c in h.opOf ==>
      Linked(Connect(h, o, node), o, c)
    ensures forall u :: u !in node.outputs ==> Src(Connect(h, o, node), u) == Src(h, u)
  {
    var h0 := h.(opOf := h.opOf[o := node]);
    assert forall t :: Src(h0, t) == Src(h, t) && Targets(h0, t) == Targets(h, t);
    LinkInputsFacts(h0, o, node.inputs, ok);
    var h1 := LinkInputs(h0, o, node.inputs);
    LinkOutputsFacts(h1, h0, o, node.outputs, ok);
    var h2 := LinkOutputs(h1, o, node.outputs);
    GrowsTrans(h0, h1, h2, ok);
    assert OpGrows(h0.opOf[o], h2.opOf[o], ok);
    assert h2 == Connect(h, o, node);
    forall t | t in node.inputs && t in h.tensorOf ensures Reads(h2, t, o) {
      KeepsReads(h1, h2, ok, t, o);
    }
    forall t, p | t in node.inputs && t in h.tensorOf && Src(h, t) == Some(p) && p in h.opOf
      ensures Linked(h2, p, o)
    {
      KeepsLinked(h1, h2, ok, p, o);
    }
  }

  // ---------------------------------------------------------------------------
  // Validity
  // ---------------------------------------------------------------------------

  /** What the graph's validity check demands of its tensor list and operator list. */
  predicate GraphValid(h: Heap, tensors: seq<TensorId>, ops: seq<OpId>)
  {
    (forall t :: t in tensors ==> |Targets(h, t)| > 0 || Src(h, t).Some?) &&
    (forall t, c :: t in tensors && c in Targets(h, t) ==> c in ops) &&
    (forall t :: t in tensors && Src(h, t).Some? ==> Src(h, t).value in ops) &&
    (forall o, t :: o in ops && t in Inputs(h, o) ==> t in tensors) &&
    (forall o, t :: o in ops && t in Outputs(h, o) ==> t in tensors) &&
    (forall o, p :: o in ops && p in Preds(h, o) ==> p in ops) &&
    (forall o, p :: o in ops && p in Succs(h, o) ==> p in ops) &&
    (forall i, j :: 0 <= i < j < |tensors| ==> Fuid(h, tensors[i]) != Fuid(h, tensors[j]))
  }

  /** Wiring a fresh operator whose operands are all in the graph into a valid graph,
      and appending it to the operator list, leaves a valid graph. */
  lemma ConnectKeepsValid(h: Heap, tensors: seq<TensorId>, ops: seq<OpId>, o: OpId, node: OpNode)
    requires GraphValid(h, tensors, ops)
    requires o !in h.opOf && node.preds == [] && node.succs == []
    requires forall t :: t in node.inputs ==> t in tensors
    requires forall t :: t in node.outputs ==> t in tensors
    ensures GraphValid(Connect(h, o, node), tensors, ops + [o])
  {
    var ops' := ops + [o];
    var ok := Items(ops');
    var h0 := h.(opOf := h.opOf[o := node]);
    ConnectLinks(h, o, node, ok);
    var h' := Connect(h, o, node);
    assert forall p :: p in ok ==> p in ops';
    forall t | t in tensors ensures |Targets(h', t)| > 0 || Src(h', t).Some? {
      if t !in node.outputs {
        TensorKept(h0, h', ok, t);
      }
    }
    forall t, c | t in tensors && c in Targets(h', t) ensures c in ops' {
      TensorKept(h0, h', ok, t);
    }
    forall t | t in tensors && Src(h', t).Some? ensures Src(h', t).value in ops' {
      if t !in node.outputs {
        assert Src(h', t) == Src(h, t);
      }
    }
    forall x | x in ops' ensures
      (forall t :: t in Inputs(h', x) ==> t in tensors) && (forall t :: t in Outputs(h', x) ==> t in tensors) &&
      (forall p :: p in Preds(h', x) ==> p in ops') && (forall p :: p in Succs(h', x) ==> p in ops')
    {
      OpKept(h0, h', ok, x);
      if x == o {
        assert Preds(h0, x) == [] && Succs(h0, x) == [] && Inputs(h0, x) == node.inputs && Outputs(h0, x) == node.outputs;
      } else {
        assert x in ops;
        assert Preds(h0, x) == Preds(h, x) && Succs(h0, x) == Succs(h, x);
        assert Inputs(h0, x) == Inputs(h, x) && Outputs(h0, x) == Outputs(h, x);
      }
    }
    forall i, j | 0 <= i < j < |tensors| ensures Fuid(h', tensors[i]) != Fuid(h', tensors[j]) {
      TensorKept(h0, h', ok, tensors[i]);
      TensorKept(h0, h', ok, tensors[j]);
      assert Fuid(h0, tensors[i]) == Fuid(h, tensors[i]) && Fuid(h0, tensors[j]) == Fuid(h, tensors[j]);
    }
  }
}
