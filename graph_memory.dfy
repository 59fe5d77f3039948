/** Memory planning over a sorted operator list: when each tensor is last touched, the
    offsets the arena planner hands out as the list is walked, and why the tensors one
    operator touches never share bytes. */
module Memory {
  import opened Common
  import opened GraphModel
  import opened Allocation

  /** `t` is read or written by `o`. */
  predicate Operand(h: Heap, o: OpId, t: TensorId)
  {
    t in Inputs(h, o) || t in Outputs(h, o)
  }

  // ---------------------------------------------------------------------------
  // Last use

  /** `m` with every tensor of `ts` mapped to `i`, one after the other. */
  function Stamp(m: map<TensorId, nat>, ts: seq<TensorId>, i: nat): map<TensorId, nat>
    decreases |ts|
  {
    if |ts| == 0 then m else Stamp(m, ts[..|ts| - 1], i)[ts[|ts| - 1] := i]
  }

  lemma {:induction false} StampAt(m: map<TensorId, nat>, ts: seq<TensorId>, i: nat, t: TensorId)
    ensures t in Stamp(m, ts, i) <==> t in m || t in ts
    ensures t in ts ==> Stamp(m, ts, i)[t] == i
    ensures t !in ts && t in m ==> Stamp(m, ts, i)[t] == m[t]
    decreases |ts|
  {
    if |ts| > 0 {
      var n := |ts| - 1;
      StampAt(m, ts[..n], i, t);
      assert ts == ts[..n] + [ts[n]];
    }
  }

  /** One pass over the operators, recording for each operand the index of the operator
      seen last: inputs first, then outputs. */
  function LastUse(h: Heap, ops: seq<OpId>): map<TensorId, nat>
    decreases |ops|
  {
    if |ops| == 0 then map[]
    else
      var n := |ops| - 1;
      Stamp(Stamp(LastUse(h, ops[..n]), Inputs(h, ops[n]), n), Outputs(h, ops[n]), n)
  }

  /** `i` is the index of the last operator of `ops` that touches `t`. */
  predicate IsLastUse(h: Heap, ops: seq<OpId>, t: TensorId, i: nat)
  {
    i < |ops| && Operand(h, ops[i], t) && forall j :: i < j < |ops| ==> !Operand(h, ops[j], t)
  }

  /** Some operator of `ops` reads or writes `t`. */
  predicate Touched(h: Heap, ops: seq<OpId>, t: TensorId)
  {
    exists i :: 0 <= i < |ops| && Operand(h, ops[i], t)
  }

  /** A tensor is recorded exactly when some operator touches it, and the recorded index
      is the largest index of an operator reading or writing it. */
  lemma {:induction false} LastUseAt(h: Heap, ops: seq<OpId>, t: TensorId)
    ensures t in LastUse(h, ops) <==> Touched(h, ops, t)
    ensures t in LastUse(h, ops) ==> IsLastUse(h, ops, t, LastUse(h, ops)[t])
    decreases |ops|
  {
    if |ops| > 0 {
      var n := |ops| - 1;
      var front := ops[..n];
      LastUseAt(h, front, t);
      var m0 := LastUse(h, front);
      var m1 := Stamp(m0, Inputs(h, ops[n]), n);
      var m := LastUse(h, ops);
      assert m == Stamp(m1, Outputs(h, ops[n]), n);
      StampAt(m0, Inputs(h, ops[n]), n, t);
      StampAt(m1, Outputs(h, ops[n]), n, t);
      if Operand(h, ops[n], t) {
        assert m[t] == n;
      } else {
        assert t in m <==> t in m0;
        UntouchedLast(h, ops, t);
        if t in m0 {
          assert m[t] == m0[t];
          LastUseKept(h, ops, t, m0[t]);
        }
      }
    }
  }

  /** An operator list whose last operator does not touch `t` touches it exactly when
      the list without that operator does. */
  lemma UntouchedLast(h: Heap, ops: seq<OpId>, t: TensorId)
    requires |ops| > 0 && !Operand(h, ops[|ops| - 1], t)
    ensures Touched(h, ops, t) <==> Touched(h, ops[..|ops| - 1], t)
  {
    var n := |ops| - 1;
    var front := ops[..n];
    if Touched(h, ops, t) {
      var i :| 0 <= i < |ops| && Operand(h, ops[i], t);
      assert i != n;
      assert front[i] == ops[i];
    }
    if Touched(h, front, t) {
      var i :| 0 <= i < n && Operand(h, front[i], t);
      assert front[i] == ops[i];
    }
  }

  /** A last use in a list stays the last use once an operator that does not touch the
      tensor is appended. */
  lemma LastUseKept(h: Heap, ops: seq<OpId>, t: TensorId, k: nat)
    requires |ops| > 0 && !Operand(h, ops[|ops| - 1], t)
    requires IsLastUse(h, ops[..|ops| - 1], t, k)
    ensures IsLastUse(h, ops, t, k)
  {
    var n := |ops| - 1;
    var front := ops[..n];
    assert front[k] == ops[k];
    forall j | k < j < |ops| ensures !Operand(h, ops[j], t) {
      if j < n {
        assert front[j] == ops[j];
      }
    }
  }

  lemma LastUseFacts(h: Heap, ops: seq<OpId>)
    ensures forall t :: t in LastUse(h, ops) <==> Touched(h, ops, t)
    ensures forall t :: t in LastUse(h, ops) ==> IsLastUse(h, ops, t, LastUse(h, ops)[t])
  {
    forall t ensures t in LastUse(h, ops) <==> Touched(h, ops, t) {
      LastUseAt(h, ops, t);
    }
    forall t | t in LastUse(h, ops) ensures IsLastUse(h, ops, t, LastUse(h, ops)[t]) {
      LastUseAt(h, ops, t);
    }
  }

  // ---------------------------------------------------------------------------
  // The planner's walk

  /** Every output of every operator is a tensor whose byte size the allocator accepts. */
  predicate Sized(h: Heap, ops: seq<OpId>)
  {
    forall o, t :: o in ops && t in Outputs(h, o) ==> 1 <= Bytes(h, t) <= SizeLimit - Alignment
  }

  /** Bytes the allocator reserves for `t`. */
  function Need(h: Heap, t: TensorId): nat
    requires Bytes(h, t) < SizeLimit
  {
    AlignedSize(Bytes(h, t))
  }

  /** The planner's state: the allocator's block list and high edge, the offset recorded
      for each tensor, and the tensors whose block is still held. */
  datatype Plan = Plan(blocks: seq<Block>, used: nat, addr: map<TensorId, nat>, live: set<TensorId>)

  /** Allocates a block for `t` and records its offset. */
  function AllocOne(h: Heap, p: Plan, t: TensorId): Plan
    requires Bytes(h, t) < SizeLimit
  {
    var g := Place(p.blocks, p.used, Need(h, t));
    Plan(g.layout.blocks, g.layout.used, p.addr[t := g.addr], p.live + {t})
  }

  /** Allocates the outputs `ts` of one operator, in order. */
  function AllocOutputs(h: Heap, p: Plan, ts: seq<TensorId>): Plan
    requires forall t :: t in ts ==> Bytes(h, t) < SizeLimit
    decreases |ts|
  {
    if |ts| == 0 then p
    else AllocOne(h, AllocOutputs(h, p, ts[..|ts| - 1]), ts[|ts| - 1])
  }

  /** Releases the block held for `t`. */
  function FreeOne(p: Plan, t: TensorId): Plan
    requires t in p.addr
  {
    var l := Freed(p.blocks, p.used, p.addr[t]);
    Plan(l.blocks, l.used, p.addr, p.live - {t})
  }

  /** Releases, in order, each input of operator `i` whose last use is `i` and whose block
      is still held: a tensor never allocated, or already released, is left alone. */
  function FreeInputs(p: Plan, ts: seq<TensorId>, last: map<TensorId, nat>, i: nat): Plan
    decreases |ts|
  {
    if |ts| == 0 then p
    else
      var q := FreeInputs(p, ts[..|ts| - 1], last, i);
      var t := ts[|ts| - 1];
      if t in q.live && t in q.addr && t in last && last[t] == i then FreeOne(q, t) else q
  }

  /** The state after the first `k` operators, starting from `p0`. */
  function PlanUpTo(h: Heap, ops: seq<OpId>, p0: Plan, k: nat): Plan
    requires Sized(h, ops) && k <= |ops|
    decreases k, 0
  {
    if k == 0 then p0
    else FreeInputs(Allocated(h, ops, p0, k - 1), Inputs(h, ops[k - 1]), LastUse(h, ops), k - 1)
  }

  /** The state while operator `k` runs: its outputs allocated, nothing of it freed yet. */
  function Allocated(h: Heap, ops: seq<OpId>, p0: Plan, k: nat): Plan
    requires Sized(h, ops) && k < |ops|
    decreases k, 1
  {
    AllocOutputs(h, PlanUpTo(h, ops, p0, k), Outputs(h, ops[k]))
  }

  /** A fresh plan over the allocator's current layout. */
  function Start(blocks: seq<Block>, used: nat): Plan
  {
    Plan(blocks, used, map[], {})
  }

  // ---------------------------------------------------------------------------
  // What the planner keeps true

  /** The plan is consistent with the allocator: every held tensor owns an allocated
      block of its size at its recorded offset, and no two held tensors share one. */
  predicate Holds(h: Heap, p: Plan)
  {
    WellFormed(p.blocks, p.used) && p.live <= p.addr.Keys &&
    (forall t :: t in p.live ==> 1 <= Bytes(h, t) < SizeLimit && Block(p.addr[t], Need(h, t), false) in AllocatedSet(p.blocks)) &&
    (forall t1, t2 :: t1 in p.live && t2 in p.live && t1 != t2 ==> p.addr[t1] != p.addr[t2])
  }

  /** On a well-formed list, a block found at the offset of an allocated block is that block. */
  lemma AtOffset(blocks: seq<Block>, used: nat, b: Block, k: nat)
    requires WellFormed(blocks, used) && b in AllocatedSet(blocks)
    requires k < |blocks| && blocks[k].offset == b.offset
    ensures blocks[k] == b
  {
    AllocatedMember(blocks, b);
    var k' :| 0 <= k' < |blocks| && blocks[k'] == b;
    TilesBounds(blocks, 0, used);
    if k < k' {
      TilesOrdered(blocks, 0, used, k, k');
    } else if k' < k {
      TilesOrdered(blocks, 0, used, k', k);
    }
  }

  /** The block at a held tensor's offset is allocated, so releasing it is legal. */
  lemma HeldBlockAllocated(h: Heap, p: Plan, t: TensorId)
    requires Holds(h, p) && t in p.live
    ensures forall k :: 0 <= k < |p.blocks| && p.blocks[k].offset == p.addr[t] ==> !p.blocks[k].free
  {
    forall k | 0 <= k < |p.blocks| && p.blocks[k].offset == p.addr[t] ensures !p.blocks[k].free {
      AtOffset(p.blocks, p.used, Block(p.addr[t], Need(h, t), false), k);
    }
  }

  lemma AllocOneHolds(h: Heap, p: Plan, t: TensorId)
    requires Holds(h, p) && 1 <= Bytes(h, t) <= SizeLimit - Alignment
    ensures Holds(h, AllocOne(h, p, t))
    ensures AllocOne(h, p, t).live == p.live + {t}
    ensures AllocOne(h, p, t).addr.Keys == p.addr.Keys + {t}
  {
    var need := Need(h, t);
    var g := Place(p.blocks, p.used, need);
    PlacePreserves(p.blocks, p.used, need);
    var r := AllocOne(h, p, t);
    var nb := Block(g.addr, need, false);
    forall t1 | t1 in r.live ensures Block(r.addr[t1], Need(h, t1), false) in AllocatedSet(r.blocks) {
      if t1 != t {
        assert r.addr[t1] == p.addr[t1];
      }
    }
    forall t1, t2 | t1 in r.live && t2 in r.live && t1 != t2 ensures r.addr[t1] != r.addr[t2] {
      if t1 != t && t2 != t {
        assert r.addr[t1] == p.addr[t1] && r.addr[t2] == p.addr[t2];
      } else {
        var o := if t1 == t then t2 else t1;
        var b := Block(p.addr[o], Need(h, o), false);
        assert r.addr[o] == p.addr[o];
        if p.addr[o] == g.addr {
          AllocatedMember(r.blocks, nb);
          var k :| 0 <= k < |r.blocks| && r.blocks[k] == nb;
          AtOffset(r.blocks, r.used, b, k);
        }
      }
    }
  }

  lemma FreeOneHolds(h: Heap, p: Plan, t: TensorId)
    requires Holds(h, p) && t in p.live
    ensures Holds(h, FreeOne(p, t))
    ensures FreeOne(p, t).live == p.live - {t} && FreeOne(p, t).addr == p.addr
  {
    HeldBlockAllocated(h, p, t);
    FreedPreserves(p.blocks, p.used, p.addr[t]);
    var r := FreeOne(p, t);
    var bt := Block(p.addr[t], Need(h, t), false);
    AllocatedMember(p.blocks, bt);
    var k :| 0 <= k < |p.blocks| && p.blocks[k] == bt;
    assert IndexOf(p.blocks, p.addr[t]).Some?;
    var i := IndexOf(p.blocks, p.addr[t]).value;
    AtOffset(p.blocks, p.used, bt, i);
    assert AllocatedSet(r.blocks) == AllocatedSet(p.blocks) - {bt};
    forall t1 | t1 in r.live ensures Block(r.addr[t1], Need(h, t1), false) in AllocatedSet(r.blocks) {
      assert p.addr[t1] != p.addr[t];
    }
  }

  lemma {:induction false} AllocOutputsHolds(h: Heap, p: Plan, ts: seq<TensorId>)
    requires Holds(h, p) && forall t :: t in ts ==> 1 <= Bytes(h, t) <= SizeLimit - Alignment
    ensures Holds(h, AllocOutputs(h, p, ts))
    decreases |ts|
  {
    if |ts| > 0 {
      var n := |ts| - 1;
      var front := ts[..n];
      assert forall t :: t in front ==> t in ts;
      AllocOutputsHolds(h, p, front);
      var q := AllocOutputs(h, p, front);
      assert AllocOutputs(h, p, ts) == AllocOne(h, q, ts[n]);
      AllocOneHolds(h, q, ts[n]);
    }
  }

  /** Allocating the outputs holds and records exactly those tensors, and no others. */
  lemma {:induction false} AllocOutputsRecords(h: Heap, p: Plan, ts: seq<TensorId>)
    requires forall t :: t in ts ==> Bytes(h, t) < SizeLimit
    ensures AllocOutputs(h, p, ts).live == p.live + Items(ts)
    ensures AllocOutputs(h, p, ts).addr.Keys == p.addr.Keys + Items(ts)
    decreases |ts|
  {
    if |ts| > 0 {
      var n := |ts| - 1;
      var front := ts[..n];
      assert forall t :: t in front ==> t in ts;
      AllocOutputsRecords(h, p, front);
      ItemsSnoc(ts);
    }
  }

  lemma ItemsSnoc(ts: seq<TensorId>)
    requires |ts| > 0
    ensures Items(ts) == Items(ts[..|ts| - 1]) + {ts[|ts| - 1]}
  {
    assert ts == ts[..|ts| - 1] + [ts[|ts| - 1]];
  }

  lemma {:induction false} FreeInputsHolds(h: Heap, p: Plan, ts: seq<TensorId>, last: map<TensorId, nat>, i: nat)
    requires Holds(h, p)
    ensures Holds(h, FreeInputs(p, ts, last, i))
    decreases |ts|
  {
    if |ts| > 0 {
      var front := ts[..|ts| - 1];
      FreeInputsHolds(h, p, front, last, i);
      var q := FreeInputs(p, front, last, i);
      var t := ts[|ts| - 1];
      if t in q.live && t in q.addr && t in last && last[t] == i {
        FreeOneHolds(h, q, t);
      }
    }
  }

  /** Freeing keeps every recorded offset and releases only inputs whose last use is `i`. */
  lemma {:induction false} FreeInputsReleases(p: Plan, ts: seq<TensorId>, last: map<TensorId, nat>, i: nat)
    ensures FreeInputs(p, ts, last, i).addr == p.addr
    ensures FreeInputs(p, ts, last, i).live <= p.live
    ensures forall t :: t in p.live && !(t in ts && t in last && last[t] == i) ==> t in FreeInputs(p, ts, last, i).live
    decreases |ts|
  {
    if |ts| > 0 {
      var front := ts[..|ts| - 1];
      FreeInputsReleases(p, front, last, i);
      assert forall x :: x in front ==> x in ts;
    }
  }

  /** The tensors written by the operators of `s`. */
  function Produced(h: Heap, s: seq<OpId>): set<TensorId>
    decreases |s|
  {
    if |s| == 0 then {} else Produced(h, s[..|s| - 1]) + Items(Outputs(h, s[|s| - 1]))
  }

  /** A produced tensor is an output of some operator of the list. */
  lemma {:induction false} ProducedBy(h: Heap, s: seq<OpId>, t: TensorId) returns (j: nat)
    requires t in Produced(h, s)
    ensures j < |s| && t in Outputs(h, s[j])
    decreases |s|
  {
    var n := |s| - 1;
    if t in Items(Outputs(h, s[n])) {
      j := n;
    } else {
      j := ProducedBy(h, s[..n], t);
      assert s[..n][j] == s[j];
    }
  }

  /** Every output of an operator of the list is produced. */
  lemma {:induction false} ProducedOutput(h: Heap, s: seq<OpId>, j: nat, t: TensorId)
    requires j < |s| && t in Outputs(h, s[j])
    ensures t in Produced(h, s)
    decreases |s|
  {
    var n := |s| - 1;
    if j < n {
      assert s[..n][j] == s[j];
      ProducedOutput(h, s[..n], j, t);
    }
  }

  /** The planner's state stays consistent with the allocator. */
  lemma {:induction false} PlanUpToHolds(h: Heap, ops: seq<OpId>, p0: Plan, k: nat)
    requires Sized(h, ops) && k <= |ops| && Holds(h, p0)
    ensures Holds(h, PlanUpTo(h, ops, p0, k))
    decreases k
  {
    if k > 0 {
      PlanUpToHolds(h, ops, p0, k - 1);
      AllocOutputsHolds(h, PlanUpTo(h, ops, p0, k - 1), Outputs(h, ops[k - 1]));
      FreeInputsHolds(h, Allocated(h, ops, p0, k - 1), Inputs(h, ops[k - 1]), LastUse(h, ops), k - 1);
    }
  }

  /** After `k` operators exactly the outputs of those operators have an offset. */
  lemma {:induction false} PlanUpToRecords(h: Heap, ops: seq<OpId>, p0: Plan, k: nat)
    requires Sized(h, ops) && k <= |ops| && p0.addr == map[]
    ensures PlanUpTo(h, ops, p0, k).addr.Keys == Produced(h, ops[..k])
    decreases k
  {
    if k > 0 {
      PlanUpToRecords(h, ops, p0, k - 1);
      AllocOutputsRecords(h, PlanUpTo(h, ops, p0, k - 1), Outputs(h, ops[k - 1]));
      FreeInputsReleases(Allocated(h, ops, p0, k - 1), Inputs(h, ops[k - 1]), LastUse(h, ops), k - 1);
      assert ops[..k][..k - 1] == ops[..k - 1];
    }
  }

  lemma StartHolds(h: Heap, blocks: seq<Block>, used: nat)
    requires WellFormed(blocks, used)
    ensures Holds(h, Start(blocks, used))
  {
  }

  lemma AllocatedHolds(h: Heap, ops: seq<OpId>, p0: Plan, k: nat)
    requires Sized(h, ops) && k < |ops| && Holds(h, p0)
    ensures Holds(h, Allocated(h, ops, p0, k))
  {
    PlanUpToHolds(h, ops, p0, k);
    AllocOutputsHolds(h, PlanUpTo(h, ops, p0, k), Outputs(h, ops[k]));
  }

  /** A tensor written by operator `j` keeps its block up to every operator `k >= j`
      that still touches it. */
  lemma {:induction false} LiveSince(h: Heap, ops: seq<OpId>, p0: Plan, t: TensorId, j: nat, k: nat)
    requires Sized(h, ops) && j <= k < |ops| && t in Outputs(h, ops[j])
    requires t in LastUse(h, ops) && LastUse(h, ops)[t] >= k
    ensures t in Allocated(h, ops, p0, k).live
    decreases k
  {
    AllocOutputsRecords(h, PlanUpTo(h, ops, p0, k), Outputs(h, ops[k]));
    if j < k {
      LiveSince(h, ops, p0, t, j, k - 1);
      FreeInputsReleases(Allocated(h, ops, p0, k - 1), Inputs(h, ops[k - 1]), LastUse(h, ops), k - 1);
    }
  }

  /** Two different held tensors occupy byte ranges that do not overlap. */
  lemma LiveApart(h: Heap, p: Plan, t1: TensorId, t2: TensorId)
    requires Holds(h, p) && t1 in p.live && t2 in p.live && t1 != t2
    ensures 1 <= Bytes(h, t1) < SizeLimit && 1 <= Bytes(h, t2) < SizeLimit
    ensures p.addr[t1] + Need(h, t1) <= p.addr[t2] || p.addr[t2] + Need(h, t2) <= p.addr[t1]
  {
    var b1 := Block(p.addr[t1], Need(h, t1), false);
    var b2 := Block(p.addr[t2], Need(h, t2), false);
    WellFormedDisjoint(p.blocks, p.used);
    assert b1 in AllocatedSet(p.blocks) && b2 in AllocatedSet(p.blocks) && b1 != b2;
  }

  /** The corrected planner's guarantee: while operator `k` runs, any two different
      tensors it reads or writes that some operator up to `k` produces have offsets, and
      their byte ranges do not overlap. */
  lemma OperandsApart(h: Heap, ops: seq<OpId>, p0: Plan, k: nat, t1: TensorId, t2: TensorId)
    requires Sized(h, ops) && Holds(h, p0) && k < |ops|
    requires Operand(h, ops[k], t1) && Operand(h, ops[k], t2) && t1 != t2
    requires t1 in Produced(h, ops[..k + 1]) && t2 in Produced(h, ops[..k + 1])
    ensures var p := Allocated(h, ops, p0, k);
      t1 in p.addr && t2 in p.addr && 1 <= Bytes(h, t1) < SizeLimit && 1 <= Bytes(h, t2) < SizeLimit &&
      (p.addr[t1] + Need(h, t1) <= p.addr[t2] || p.addr[t2] + Need(h, t2) <= p.addr[t1])
  {
    var p := Allocated(h, ops, p0, k);
    AllocatedHolds(h, ops, p0, k);
    HeldAtUse(h, ops, p0, k, t1);
    HeldAtUse(h, ops, p0, k, t2);
    LiveApart(h, p, t1, t2);
  }

  /** A produced operand of operator `k` is held while `k` runs. */
  lemma HeldAtUse(h: Heap, ops: seq<OpId>, p0: Plan, k: nat, t: TensorId)
    requires Sized(h, ops) && k < |ops| && Operand(h, ops[k], t) && t in Produced(h, ops[..k + 1])
    ensures t in Allocated(h, ops, p0, k).live
  {
    LastUseAt(h, ops, t);
    var j := ProducedBy(h, ops[..k + 1], t);
    assert ops[..k + 1][j] == ops[j];
    LiveSince(h, ops, p0, t, j, k);
  }

  /** No tensor is written by two different operators of the list. */
  predicate SingleWriters(h: Heap, ops: seq<OpId>)
  {
    forall i, j, t :: 0 <= i < j < |ops| && t in Outputs(h, ops[i]) ==> t !in Outputs(h, ops[j])
  }

  /** Allocating other tensors leaves the offset recorded for `t` alone. */
  lemma {:induction false} AllocOutputsKeeps(h: Heap, p: Plan, ts: seq<TensorId>, t: TensorId)
    requires forall x :: x in ts ==> Bytes(h, x) < SizeLimit
    requires t in p.addr && t !in ts
    ensures t in AllocOutputs(h, p, ts).addr && AllocOutputs(h, p, ts).addr[t] == p.addr[t]
    decreases |ts|
  {
    if |ts| > 0 {
      var front := ts[..|ts| - 1];
      assert forall x :: x in front ==> x in ts;
      AllocOutputsKeeps(h, p, front, t);
    }
  }

  /** With a single writer per tensor, the offset an output of operator `j` receives while
      `j` runs is the one recorded after every later operator. */
  lemma {:induction false} AddrKept(h: Heap, ops: seq<OpId>, p0: Plan, j: nat, m: nat, t: TensorId)
    requires Sized(h, ops) && SingleWriters(h, ops) && j < m <= |ops| && t in Outputs(h, ops[j])
    ensures t in Allocated(h, ops, p0, j).addr
    ensures t in PlanUpTo(h, ops, p0, m).addr && PlanUpTo(h, ops, p0, m).addr[t] == Allocated(h, ops, p0, j).addr[t]
    decreases m
  {
    AllocOutputsRecords(h, PlanUpTo(h, ops, p0, j), Outputs(h, ops[j]));
    FreeInputsReleases(Allocated(h, ops, p0, m - 1), Inputs(h, ops[m - 1]), LastUse(h, ops), m - 1);
    if j < m - 1 {
      AddrKept(h, ops, p0, j, m - 1, t);
      AllocOutputsKeeps(h, PlanUpTo(h, ops, p0, m - 1), Outputs(h, ops[m - 1]), t);
    }
  }

  /** With a single writer per tensor, a tensor produced by operator `k` or earlier has, at
      the end of the walk, the offset it holds while `k` runs. */
  lemma SameAtEnd(h: Heap, ops: seq<OpId>, p0: Plan, k: nat, t: TensorId)
    requires Sized(h, ops) && SingleWriters(h, ops) && k < |ops| && t in Produced(h, ops[..k + 1])
    ensures t in Allocated(h, ops, p0, k).addr && t in PlanUpTo(h, ops, p0, |ops|).addr
    ensures PlanUpTo(h, ops, p0, |ops|).addr[t] == Allocated(h, ops, p0, k).addr[t]
  {
    var j := ProducedBy(h, ops[..k + 1], t);
    assert ops[..k + 1][j] == ops[j];
    AddrKept(h, ops, p0, j, |ops|, t);
    if j < k {
      AddrKept(h, ops, p0, j, k, t);
      AllocOutputsKeeps(h, PlanUpTo(h, ops, p0, k), Outputs(h, ops[k]), t);
    }
  }

  /** What the finished plan promises: when no tensor is written by two listed operators,
      the final offsets of any two different produced operands of one operator do not
      overlap. */
  lemma FinalApart(h: Heap, ops: seq<OpId>, p0: Plan, k: nat, t1: TensorId, t2: TensorId)
    requires Sized(h, ops) && Holds(h, p0) && SingleWriters(h, ops) && k < |ops|
    requires Operand(h, ops[k], t1) && Operand(h, ops[k], t2) && t1 != t2
    requires t1 in Produced(h, ops[..k + 1]) && t2 in Produced(h, ops[..k + 1])
    ensures var p := PlanUpTo(h, ops, p0, |ops|);
      t1 in p.addr && t2 in p.addr && 1 <= Bytes(h, t1) < SizeLimit && 1 <= Bytes(h, t2) < SizeLimit &&
      (p.addr[t1] + Need(h, t1) <= p.addr[t2] || p.addr[t2] + Need(h, t2) <= p.addr[t1])
  {
    OperandsApart(h, ops, p0, k, t1, t2);
    SameAtEnd(h, ops, p0, k, t1);
    SameAtEnd(h, ops, p0, k, t2);
  }

  /** In a topological order, every input whose writer is in the list is produced by an
      earlier operator, so the guarantee above covers it. */
  lemma TopoProduced(h: Heap, ops: seq<OpId>, k: nat, t: TensorId)
    requires k < |ops| && t in Inputs(h, ops[k]) && Src(h, t).Some? && t in Outputs(h, Src(h, t).value)
    requires forall i, x :: 0 <= i < |ops| && x in Inputs(h, ops[i]) && Src(h, x).Some? ==> Src(h, x).value in ops[..i]
    ensures t in Produced(h, ops[..k])
  {
    var p := Src(h, t).value;
    assert p in ops[..k];
    var j :| 0 <= j < k && ops[..k][j] == p;
    ProducedOutput(h, ops[..k], j, t);
  }

  // ---------------------------------------------------------------------------
  // The free loop as written

  /** The block found first at `a` is already free: the allocator's assertion fails. */
  predicate FreeBlockAt(blocks: seq<Block>, a: nat)
  {
    IndexOf(blocks, a).Some? && blocks[IndexOf(blocks, a).value].free
  }

  /** `free(addrMap[t], ...)`: an input with no recorded offset is given offset 0 (and
      keeps it in the map) before its block is released. */
  function FreeAsWritten(p: Plan, t: TensorId): Result<Plan>
  {
    var a := if t in p.addr then p.addr[t] else 0;
    if FreeBlockAt(p.blocks, a) then Err(AssertFailed)
    else
      var l := Freed(p.blocks, p.used, a);
      Ok(Plan(l.blocks, l.used, p.addr[t := a], p.live - {t}))
  }

  /** Frees every input occurrence whose last use is `i`, once per occurrence. */
  function FreeInputsAsWritten(p: Plan, ts: seq<TensorId>, last: map<TensorId, nat>, i: nat): Result<Plan>
    decreases |ts|
  {
    if |ts| == 0 then Ok(p)
    else match FreeInputsAsWritten(p, ts[..|ts| - 1], last, i)
      case Err(e) => Err(e)
      case Ok(q) =>
        var t := ts[|ts| - 1];
        if t in last && last[t] == i then FreeAsWritten(q, t) else Ok(q)
  }

  /** The source's planning loop over the first `k` operators. */
  function PlanAsWrittenUpTo(h: Heap, ops: seq<OpId>, p0: Plan, k: nat): Result<Plan>
    requires Sized(h, ops) && k <= |ops|
    decreases k
  {
    if k == 0 then Ok(p0)
    else match PlanAsWrittenUpTo(h, ops, p0, k - 1)
      case Err(e) => Err(e)
      case Ok(p) =>
        FreeInputsAsWritten(AllocOutputs(h, p, Outputs(h, ops[k - 1])), Inputs(h, ops[k - 1]), LastUse(h, ops), k - 1)
  }

  // ---------------------------------------------------------------------------
  // Two graphs on which the loop as written goes wrong

  /** x -> transpose -> y -> transpose -> z, every tensor 8 bytes. */
  function Chain(): Heap
  {
    Heap(map[0 := TensorNode(0, [2], 4, None, [0]), 1 := TensorNode(1, [2], 4, Some(0), [1]),
             2 := TensorNode(2, [2], 4, Some(1), [])],
         map[0 := OpNode(Transpose([0]), [0], [1], [], [1]), 1 := OpNode(Transpose([0]), [1], [2], [0], [])])
  }

  lemma ChainSized()
    ensures Sized(Chain(), [0, 1])
  {
    var h := Chain();
    forall o, t | o in [0, 1] && t in Outputs(h, o) ensures 1 <= Bytes(h, t) <= SizeLimit - Alignment {
      assert o == 0 || o == 1;
      assert Outputs(h, 0) == [1] && Outputs(h, 1) == [2];
      assert Bytes(h, 1) == 8 && Bytes(h, 2) == 8;
    }
  }

  lemma ChainLastUse()
    ensures LastUse(Chain(), [0, 1]) == map[0 := 0, 1 := 1, 2 := 1]
  {
    var h := Chain();
    assert [0, 1][..1] == [0] && [0][..0] == [];
    var m0 := LastUse(h, [0]);
    assert m0 == Stamp(Stamp(map[], [0], 0), [1], 0);
    assert m0 == map[0 := 0, 1 := 0];
    assert LastUse(h, [0, 1]) == Stamp(Stamp(m0, [1], 1), [2], 1);
  }

  /** The first allocation on an empty list opens a block at offset 0. */
  lemma PlaceOnEmpty(need: nat)
    ensures Place([], 0, need) == Grant(0, Layout([Block(0, need, false)], need))
  {
  }

  /** With a single block allocated, the next allocation goes right after it. */
  lemma PlaceAfterOne(size: nat, need: nat)
    ensures Place([Block(0, size, false)], size, need) == Grant(size, Layout([Block(0, size, false), Block(size, need, false)], size + need))
  {
    assert FirstFit([Block(0, size, false)], need) == None;
  }

  /** Releasing the only block empties the list. */
  lemma FreeOnly(size: nat)
    ensures Freed([Block(0, size, false)], size, 0) == Layout([], 0)
  {
    var b := Block(0, size, false);
    assert IndexOf([b], 0) == Some(0);
    assert MergeNext([b], 0) == [b.(free := true)];
    assert Release([b], 0) == [b.(free := true)];
    assert [b.(free := true)][..0] == [];
    assert TrimTail([b.(free := true)], size) == TrimTail([], 0);
  }

  /** Releasing the first of two allocated blocks leaves it free in place. */
  lemma FreeFirstOfTwo(a: nat, b: nat)
    ensures IndexOf([Block(0, a, false), Block(a, b, false)], 0) == Some(0)
    ensures Freed([Block(0, a, false), Block(a, b, false)], a + b, 0) == Layout([Block(0, a, true), Block(a, b, false)], a + b)
  {
    var s := [Block(0, a, false), Block(a, b, false)];
    var r := [Block(0, a, true), Block(a, b, false)];
    assert s[..0] == [] && s[1..] == [Block(a, b, false)];
    assert MergeNext(s, 0) == r;
    assert Release(s, 0) == r;
    assert TrimTail(r, a + b) == Layout(r, a + b);
  }

  lemma AllocSingle(h: Heap, p: Plan, t: TensorId)
    requires Bytes(h, t) < SizeLimit
    ensures AllocOutputs(h, p, [t]) == AllocOne(h, p, t)
  {
    assert [t][..0] == [];
  }

  lemma FreeSingleAsWritten(p: Plan, t: TensorId, last: map<TensorId, nat>, i: nat)
    ensures FreeInputsAsWritten(p, [t], last, i) == if t in last && last[t] == i then FreeAsWritten(p, t) else Ok(p)
  {
    assert [t][..0] == [];
  }

  lemma FreeSingle(p: Plan, t: TensorId, last: map<TensorId, nat>, i: nat)
    ensures FreeInputs(p, [t], last, i) == if t in p.live && t in p.addr && t in last && last[t] == i then FreeOne(p, t) else p
  {
    assert [t][..0] == [];
  }

  /** Releasing, as written, an input recorded at offset 0 (or not recorded) when the
      list holds one block there. */
  lemma FreeOnlyAsWritten(p: Plan, t: TensorId, size: nat)
    requires p.blocks == [Block(0, size, false)] && p.used == size && (t in p.addr ==> p.addr[t] == 0)
    ensures FreeAsWritten(p, t) == Ok(Plan([], 0, p.addr[t := 0], p.live - {t}))
  {
    assert IndexOf(p.blocks, 0) == Some(0);
    FreeOnly(size);
  }

  lemma ChainFirstStepAsWritten()
    ensures Sized(Chain(), [0, 1])
    ensures PlanAsWrittenUpTo(Chain(), [0, 1], Start([], 0), 1) == Ok(Plan([], 0, map[1 := 0, 0 := 0], {1}))
  {
    var h, ops := Chain(), [0, 1];
    ChainSized();
    assert Bytes(h, 1) == 8 && Bytes(h, 2) == 8;
    assert AlignedSize(8) == 8;
    ChainLastUse();
    AllocSingle(h, Start([], 0), 1);
    PlaceOnEmpty(8);
    var p1 := Plan([Block(0, 8, false)], 8, map[1 := 0], {1});
    assert AllocOutputs(h, Start([], 0), [1]) == p1;
    FreeSingleAsWritten(p1, 0, LastUse(h, ops), 0);
    FreeOnlyAsWritten(p1, 0, 8);
    assert {1} - {0} == {1};
    var q1 := Plan([], 0, map[1 := 0, 0 := 0], {1});
    assert FreeAsWritten(p1, 0) == Ok(q1);
    assert FreeInputsAsWritten(p1, [0], LastUse(h, ops), 0) == Ok(q1);
    assert Outputs(h, ops[0]) == [1] && Inputs(h, ops[0]) == [0];
    assert PlanAsWrittenUpTo(h, ops, Start([], 0), 0) == Ok(Start([], 0));
  }

  /** The graph input x has no offset, so its release at its last use frees offset 0,
      which is y's block; z then reuses offset 0 while the second transpose still reads y.
      All three tensors end up recorded at offset 0. */
  lemma GraphInputFreedAtZero()
    ensures Sized(Chain(), [0, 1])
    ensures PlanAsWrittenUpTo(Chain(), [0, 1], Start([], 0), 2) == Ok(Plan([], 0, map[1 := 0, 0 := 0, 2 := 0], {2}))
  {
    var h, ops := Chain(), [0, 1];
    ChainFirstStepAsWritten();
    assert Bytes(h, 2) == 8;
    assert AlignedSize(8) == 8;
    ChainLastUse();
    var q1 := Plan([], 0, map[1 := 0, 0 := 0], {1});
    AllocSingle(h, q1, 2);
    PlaceOnEmpty(8);
    var p2 := Plan([Block(0, 8, false)], 8, map[1 := 0, 0 := 0, 2 := 0], {1, 2});
    assert AllocOutputs(h, q1, [2]) == p2;
    FreeSingleAsWritten(p2, 1, LastUse(h, ops), 1);
    FreeOnlyAsWritten(p2, 1, 8);
    assert p2.addr[1 := 0] == p2.addr;
    assert {1, 2} - {1} == {2};
    var q2 := Plan([], 0, map[1 := 0, 0 := 0, 2 := 0], {2});
    assert FreeAsWritten(p2, 1) == Ok(q2);
    assert FreeInputsAsWritten(p2, [1], LastUse(h, ops), 1) == Ok(q2);
    assert Outputs(h, ops[1]) == [2] && Inputs(h, ops[1]) == [1];
  }

  /** On the same graph the corrected walk keeps y's block while the second transpose
      writes z: z goes to the next offset, and x never gets one. */
  lemma ChainKeepsInputBlock()
    ensures Sized(Chain(), [0, 1])
    ensures Allocated(Chain(), [0, 1], Start([], 0), 1).addr == map[1 := 0, 2 := 8]
  {
    var h, ops := Chain(), [0, 1];
    ChainSized();
    assert Bytes(h, 1) == 8 && Bytes(h, 2) == 8;
    assert AlignedSize(8) == 8;
    ChainLastUse();
    var last := LastUse(h, ops);
    AllocSingle(h, Start([], 0), 1);
    PlaceOnEmpty(8);
    var p1 := Plan([Block(0, 8, false)], 8, map[1 := 0], {1});
    assert AllocOutputs(h, Start([], 0), [1]) == p1;
    FreeSingle(p1, 0, last, 0);
    assert Outputs(h, ops[0]) == [1] && Inputs(h, ops[0]) == [0] && Outputs(h, ops[1]) == [2];
    assert PlanUpTo(h, ops, Start([], 0), 1) == p1;
    AllocSingle(h, p1, 2);
    PlaceAfterOne(8, 8);
  }

  /** x -> transpose -> y; a matrix product of y with itself gives z; z is joined with x
      into w. Every tensor is 8 bytes. */
  function SelfProduct(): Heap
  {
    Heap(map[0 := TensorNode(0, [2], 4, None, [0, 2]), 1 := TensorNode(1, [2], 4, Some(0), [1, 1]),
             2 := TensorNode(2, [2], 4, Some(1), [2]), 3 := TensorNode(3, [2], 4, Some(2), [])],
         map[0 := OpNode(Transpose([0]), [0], [1], [], [1]),
             1 := OpNode(MatMul(false, false, MatmulOp.Mnk(0, 0, 0)), [1, 1], [2], [0], [2]),
             2 := OpNode(Concat(0), [2, 0], [3], [1], [])])
  }

  lemma SelfProductSized()
    ensures Sized(SelfProduct(), [0, 1, 2])
  {
    var h := SelfProduct();
    forall o, t | o in [0, 1, 2] && t in Outputs(h, o) ensures 1 <= Bytes(h, t) <= SizeLimit - Alignment {
      assert o == 0 || o == 1 || o == 2;
      assert Outputs(h, 0) == [1] && Outputs(h, 1) == [2] && Outputs(h, 2) == [3];
      assert Bytes(h, 1) == 8 && Bytes(h, 2) == 8 && Bytes(h, 3) == 8;
    }
  }

  lemma SelfProductLastUse()
    ensures LastUse(SelfProduct(), [0, 1, 2]) == map[0 := 2, 1 := 1, 2 := 2, 3 := 2]
  {
    var h := SelfProduct();
    assert [0, 1, 2][..2] == [0, 1] && [0, 1][..1] == [0] && [0][..0] == [];
    assert [1, 1][..1] == [1] && [2, 0][..1] == [2] && [1][..0] == [] && [2][..0] == [] && [3][..0] == [];
    var m0 := LastUse(h, [0]);
    assert m0 == map[0 := 0, 1 := 0];
    var m1 := LastUse(h, [0, 1]);
    assert m1 == Stamp(Stamp(m0, [1, 1], 1), [2], 1);
    assert m1 == map[0 := 0, 1 := 1, 2 := 1];
    assert LastUse(h, [0, 1, 2]) == Stamp(Stamp(m1, [2, 0], 2), [3], 2);
  }

  lemma SelfProductFirstStep()
    ensures Sized(SelfProduct(), [0, 1, 2])
    ensures PlanAsWrittenUpTo(SelfProduct(), [0, 1, 2], Start([], 0), 1) == Ok(Plan([Block(0, 8, false)], 8, map[1 := 0], {1}))
  {
    var h, ops := SelfProduct(), [0, 1, 2];
    SelfProductSized();
    SelfProductLastUse();
    assert Bytes(h, 1) == 8;
    assert AlignedSize(8) == 8;
    AllocSingle(h, Start([], 0), 1);
    PlaceOnEmpty(8);
    var p1 := Plan([Block(0, 8, false)], 8, map[1 := 0], {1});
    assert AllocOutputs(h, Start([], 0), [1]) == p1;
    FreeSingleAsWritten(p1, 0, LastUse(h, ops), 0);
    assert Outputs(h, ops[0]) == [1] && Inputs(h, ops[0]) == [0];
    assert PlanAsWrittenUpTo(h, ops, Start([], 0), 0) == Ok(Start([], 0));
  }

  /** The matrix product reads y twice, and y's last use is that product, so the loop
      as written frees y's block twice: the second release finds the block already free
      and the allocator's assertion fails. */
  lemma RepeatedInputFreedTwice()
    ensures Sized(SelfProduct(), [0, 1, 2])
    ensures PlanAsWrittenUpTo(SelfProduct(), [0, 1, 2], Start([], 0), 2) == Err(AssertFailed)
  {
    var h, ops := SelfProduct(), [0, 1, 2];
    SelfProductFirstStep();
    SelfProductLastUse();
    var p1 := Plan([Block(0, 8, false)], 8, map[1 := 0], {1});
    var p2 := Plan([Block(0, 8, false), Block(8, 8, false)], 16, map[1 := 0, 2 := 8], {1, 2});
    SecondAlloc(h, p1, 2);
    TwiceFreed(p2, LastUse(h, ops));
    assert Outputs(h, ops[1]) == [2] && Inputs(h, ops[1]) == [1, 1];
  }

  lemma SecondAlloc(h: Heap, p1: Plan, t: TensorId)
    requires Bytes(h, t) == 8 && p1 == Plan([Block(0, 8, false)], 8, map[1 := 0], {1})
    ensures AllocOutputs(h, p1, [t]) == Plan([Block(0, 8, false), Block(8, 8, false)], 16, p1.addr[t := 8], {1, t})
  {
    assert AlignedSize(8) == 8;
    AllocSingle(h, p1, t);
    PlaceAfterOne(8, 8);
  }

  lemma TwiceFreed(p2: Plan, last: map<TensorId, nat>)
    requires p2 == Plan([Block(0, 8, false), Block(8, 8, false)], 16, map[1 := 0, 2 := 8], {1, 2})
    requires 1 in last && last[1] == 1
    ensures FreeInputsAsWritten(p2, [1, 1], last, 1) == Err(AssertFailed)
  {
    var released := [Block(0, 8, true), Block(8, 8, false)];
    FreeFirstOfTwo(8, 8);
    assert {1, 2} - {1} == {2} && p2.addr[1 := 0] == p2.addr;
    var q := Plan(released, 16, map[1 := 0, 2 := 8], {2});
    assert FreeAsWritten(p2, 1) == Ok(q);
    assert [1, 1][..1] == [1];
    FreeSingleAsWritten(p2, 1, last, 1);
    assert FreeBlockAt(q.blocks, 0);
  }
}
