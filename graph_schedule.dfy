/** What the graph's topological sort promises: an order in which every operator comes
    after the writers of its inputs, and the reason a sweep that places nothing proves
    that no such order exists. */
module Schedule {
  import opened Common
  import opened GraphModel

  /** Every input of `o` has no writer, or its writer is already placed. */
  predicate Ready(h: Heap, o: OpId, placed: set<OpId>)
  {
    forall t :: t in Inputs(h, o) ==> Src(h, t).None? || Src(h, t).value in placed
  }

  /** Every operator of `s` comes after the writer of each of its inputs. */
  predicate TopoOrdered(h: Heap, s: seq<OpId>)
  {
    forall i, t :: 0 <= i < |s| && t in Inputs(h, s[i]) && Src(h, t).Some? ==> Src(h, t).value in s[..i]
  }

  /** The operator list has no repeats and can be rearranged into a topological order. */
  ghost predicate Schedulable(h: Heap, ops: seq<OpId>)
  {
    Unique(ops) && exists w: seq<OpId> :: multiset(w) == multiset(ops) && TopoOrdered(h, w)
  }

  /** Placing a ready operator after a topologically ordered prefix keeps it ordered. */
  lemma TopoSnoc(h: Heap, s: seq<OpId>, o: OpId)
    requires TopoOrdered(h, s) && Ready(h, o, Items(s))
    ensures TopoOrdered(h, s + [o])
  {
    var s' := s + [o];
    forall i, t | 0 <= i < |s'| && t in Inputs(h, s'[i]) && Src(h, t).Some?
      ensures Src(h, t).value in s'[..i]
    {
      if i < |s| {
        assert s'[i] == s[i] && s'[..i] == s[..i];
      } else {
        assert s'[..i] == s;
      }
    }
  }

  /** Index of the first entry of `w` outside `placed`, or `|w|` when there is none. */
  function FirstOutside(w: seq<OpId>, placed: set<OpId>): (r: nat)
    ensures r <= |w| && (forall i :: 0 <= i < r ==> w[i] in placed) && (r < |w| ==> w[r] !in placed)
    decreases |w|
  {
    if |w| == 0 then 0
    else if w[0] !in placed then 0
    else 1 + FirstOutside(w[1..], placed)
  }

  /** If the operators can be ordered at all, any placement that has not yet reached
      all of them leaves some unplaced operator ready: so a sweep that places nothing
      shows that no topological order exists. */
  lemma Unstuck(h: Heap, ops: seq<OpId>, placed: seq<OpId>)
    requires |placed| < |ops|
    ensures Schedulable(h, ops) ==>
      exists k :: 0 <= k < |ops| && ops[k] !in Items(placed) && Ready(h, ops[k], Items(placed))
  {
    if Schedulable(h, ops) {
      var w: seq<OpId> :| multiset(w) == multiset(ops) && TopoOrdered(h, w);
      var m := FirstOutside(w, Items(placed));
      if m == |w| {
        forall x | x in ops ensures x in placed {
          assert x in multiset(w);
          var i :| 0 <= i < |w| && w[i] == x;
        }
        UniqueShorter(ops, placed);
        assert false;
      } else {
        assert w[m] in multiset(ops);
        var k :| 0 <= k < |ops| && ops[k] == w[m];
        forall t | t in Inputs(h, ops[k]) && Src(h, t).Some? ensures Src(h, t).value in Items(placed) {
          var p := Src(h, t).value;
          assert p in w[..m];
          var i :| 0 <= i < m && w[..m][i] == p;
          assert w[i] == p;
        }
      }
    }
  }

  /** One sweep from position `i`: every operator not yet placed whose inputs' writers
      are all placed is appended, in list order. */
  function Sweep(h: Heap, ops: seq<OpId>, i: nat, order: seq<OpId>): (r: seq<OpId>)
    requires i <= |ops|
    ensures |order| <= |r| && r[..|order|] == order
    decreases |ops| - i
  {
    if i == |ops| then order
    else if ops[i] !in Items(order) && Ready(h, ops[i], Items(order)) then Sweep(h, ops, i + 1, order + [ops[i]])
    else Sweep(h, ops, i + 1, order)
  }

  /** The order the sweeps build from `order`: sweep until every operator is placed, or
      fail when a sweep places nothing. */
  function SweepOrder(h: Heap, ops: seq<OpId>, order: seq<OpId>): Option<seq<OpId>>
    decreases |ops| - |order|
  {
    if |order| >= |ops| then Some(order)
    else
      var next := Sweep(h, ops, 0, order);
      if |next| <= |order| then None else SweepOrder(h, ops, next)
  }

  /** Listed after its reader, a writer is still placed first: the first sweep places
      operator 0, the second places operator 1, which reads 0's output. */
  lemma SweepExample()
    ensures SweepOrder(Heap(map[0 := TensorNode(0, [1], 4, None, [0]), 1 := TensorNode(1, [1], 4, Some(0), [1]), 2 := TensorNode(2, [1], 4, Some(1), [])],
                            map[0 := OpNode(Concat(0), [0], [1], [], [1]), 1 := OpNode(Concat(0), [1], [2], [0], [])]),
                        [1, 0], []) == Some([0, 1])
  {
    var h := Heap(map[0 := TensorNode(0, [1], 4, None, [0]), 1 := TensorNode(1, [1], 4, Some(0), [1]), 2 := TensorNode(2, [1], 4, Some(1), [])],
                  map[0 := OpNode(Concat(0), [0], [1], [], [1]), 1 := OpNode(Concat(0), [1], [2], [0], [])]);
    assert !Ready(h, 1, {}) by { assert 1 in Inputs(h, 1); }
    assert Ready(h, 0, {});
    assert Sweep(h, [1, 0], 0, []) == [0];
    assert Ready(h, 1, {0});
    assert Sweep(h, [1, 0], 0, [0]) == [0, 1];
  }

  /** Two operators that each read the other's output cannot be ordered. */
  lemma CycleUnschedulable()
    ensures !Schedulable(Heap(map[0 := TensorNode(0, [1], 4, Some(1), [0]), 1 := TensorNode(1, [1], 4, Some(0), [1])],
                              map[0 := OpNode(Concat(0), [0], [1], [1], [1]), 1 := OpNode(Concat(0), [1], [0], [0], [0])]),
                         [0, 1])
  {
    var h := Heap(map[0 := TensorNode(0, [1], 4, Some(1), [0]), 1 := TensorNode(1, [1], 4, Some(0), [1])],
                  map[0 := OpNode(Concat(0), [0], [1], [1], [1]), 1 := OpNode(Concat(0), [1], [0], [0], [0])]);
    var ops: seq<OpId> := [0, 1];
    forall w: seq<OpId> | multiset(w) == multiset(ops) ensures !TopoOrdered(h, w) {
      assert |w| == |multiset(w)| == 2;
      assert w[0] in multiset(w);
      if w[0] == 0 {
        assert 0 in Inputs(h, w[0]) && Src(h, 0) == Some(1);
      } else {
        assert 1 in Inputs(h, w[0]) && Src(h, 1) == Some(0);
      }
    }
  }
}
