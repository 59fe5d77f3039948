/** The arena offset planner: it hands out byte offsets inside one arena that
    is only obtained from the runtime once planning is over. */
module Allocation {
  import opened Common

  /** Allocation granularity: the width of the widest element type (a 64-bit word). */
  const Alignment: nat := 8

  /** 2^64: sizes are `size_t` values. */
  const SizeLimit: nat := 0x1_0000_0000_0000_0000

  /** Rounds `size` up to a multiple of `Alignment` with `size_t` arithmetic:
      `((size - 1) / alignment + 1) * alignment`, every step modulo 2^64. */
  function AlignedSize(size: nat): (r: nat)
    requires size < SizeLimit
    ensures r < SizeLimit && r % Alignment == 0
    ensures 1 <= size <= SizeLimit - Alignment ==> size <= r < size + Alignment
    ensures size == 0 ==> r == 0
  {
    var pred := (size - 1) % SizeLimit;
    var r := ((pred / Alignment + 1) * Alignment) % SizeLimit;
    AlignedSizeFacts(size, pred, r);
    r
  }

  lemma AlignedSizeFacts(size: nat, pred: nat, r: nat)
    requires size < SizeLimit
    requires pred == (size - 1) % SizeLimit
    requires r == ((pred / Alignment + 1) * Alignment) % SizeLimit
    ensures r < SizeLimit && r % Alignment == 0
    ensures 1 <= size <= SizeLimit - Alignment ==> size <= r < size + Alignment
    ensures size == 0 ==> r == 0
  {
    var q := pred / Alignment;
    assert q * Alignment <= pred < q * Alignment + Alignment;
    var up := (q + 1) * Alignment;
    if size == 0 {
      assert pred == SizeLimit - 1;
      assert q == SizeLimit / Alignment - 1;
      assert up == SizeLimit;
    } else {
      assert pred == size - 1;
      if size <= SizeLimit - Alignment {
        assert up <= SizeLimit - Alignment;
        assert r == up;
      }
    }
    assert up % Alignment == 0;
    assert up < SizeLimit ==> r == up;
    assert up >= SizeLimit ==> up == SizeLimit && r == 0;
  }

  /** One entry of the block list: the byte range `[offset, offset + size)` and whether it is free. */
  datatype Block = Block(offset: nat, size: nat, free: bool)

  function End(b: Block): nat { b.offset + b.size }

  /** The blocks tile `[start, stop)` in list order: each is non-empty and starts where
      the previous one ends. */
  predicate Tiles(blocks: seq<Block>, start: nat, stop: nat)
    decreases |blocks|
  {
    if |blocks| == 0 then start == stop
    else blocks[0].offset == start && blocks[0].size > 0 && Tiles(blocks[1..], End(blocks[0]), stop)
  }

  /** Merge invariant: no two neighbouring blocks are both free. */
  predicate Coalesced(blocks: seq<Block>)
    decreases |blocks|
  {
    |blocks| < 2 || (!(blocks[0].free && blocks[1].free) && Coalesced(blocks[1..]))
  }

  /** The tail block, if any, is allocated: trailing free space is always reclaimed. */
  predicate TailAllocated(blocks: seq<Block>)
  {
    |blocks| > 0 ==> !blocks[|blocks| - 1].free
  }

  predicate WellFormed(blocks: seq<Block>, used: nat)
  {
    Tiles(blocks, 0, used) && Coalesced(blocks) && TailAllocated(blocks)
  }

  /** The blocks currently handed out. */
  function AllocatedSet(blocks: seq<Block>): set<Block>
  {
    if |blocks| == 0 then {}
    else (if blocks[0].free then {} else {blocks[0]}) + AllocatedSet(blocks[1..])
  }

  /** Allocated byte ranges never overlap. */
  predicate AllocatedDisjoint(blocks: seq<Block>)
  {
    forall a, b :: a in AllocatedSet(blocks) && b in AllocatedSet(blocks) && a != b ==>
      End(a) <= b.offset || End(b) <= a.offset
  }

  predicate Fits(b: Block, size: nat) { b.free && b.size >= size }

  /** First-fit: the index of the first free block, in list order, that can hold `size` bytes. */
  function FirstFit(blocks: seq<Block>, size: nat): (r: Option<nat>)
    ensures r.Some? ==> r.value < |blocks| && Fits(blocks[r.value], size)
    ensures r.Some? ==> forall k :: 0 <= k < r.value ==> !Fits(blocks[k], size)
    ensures r.None? ==> forall k :: 0 <= k < |blocks| ==> !Fits(blocks[k], size)
  {
    if |blocks| == 0 then None
    else if Fits(blocks[0], size) then Some(0)
    else match FirstFit(blocks[1..], size)
      case None => None
      case Some(k) => Some(k + 1)
  }

  /** Allocates `size` bytes from the free block at `i`: an allocated prefix of exactly
      `size` bytes, followed by a free remainder when the block is strictly larger. */
  function Split(blocks: seq<Block>, i: nat, size: nat): seq<Block>
    requires i < |blocks| && size <= blocks[i].size
  {
    var b := blocks[i];
    if b.size > size then
      blocks[..i] + [Block(b.offset, size, false), Block(b.offset + size, b.size - size, true)] + blocks[i + 1..]
    else
      blocks[..i] + [Block(b.offset, b.size, false)] + blocks[i + 1..]
  }

  /** Marks block `i` free, merges it with a free successor, then with a free predecessor. */
  function Release(blocks: seq<Block>, i: nat): seq<Block>
    requires i < |blocks|
  {
    MergePrev(MergeNext(blocks, i), i)
  }

  /** Marks block `i` free and absorbs the block after it when that one is free too. */
  function MergeNext(blocks: seq<Block>, i: nat): (r: seq<Block>)
    requires i < |blocks|
    ensures i < |r|
  {
    var marked := blocks[i].(free := true);
    if i + 1 < |blocks| && blocks[i + 1].free
    then blocks[..i] + [marked.(size := marked.size + blocks[i + 1].size)] + blocks[i + 2..]
    else blocks[..i] + [marked] + blocks[i + 1..]
  }

  /** Absorbs block `i` into the block before it when that one is free. */
  function MergePrev(s: seq<Block>, i: nat): seq<Block>
    requires i < |s|
  {
    if i > 0 && s[i - 1].free
    then s[..i - 1] + [s[i - 1].(size := s[i - 1].size + s[i].size)] + s[i + 1..]
    else s
  }

  /** The block list together with the high edge of the partition. */
  datatype Layout = Layout(blocks: seq<Block>, used: nat)

  /** Pops free blocks off the tail, lowering `used` by their sizes. */
  function TrimTail(blocks: seq<Block>, used: nat): (r: Layout)
    decreases |blocks|
  {
    if |blocks| > 0 && blocks[|blocks| - 1].free then
      var last := blocks[|blocks| - 1];
      // on a contiguous list `used` is never below the size of the last block
      TrimTail(blocks[..|blocks| - 1], if last.size <= used then used - last.size else 0)
    else Layout(blocks, used)
  }

  /** Index of the first block that starts at `addr`. */
  function IndexOf(blocks: seq<Block>, addr: nat): (r: Option<nat>)
    ensures r.Some? ==> r.value < |blocks| && blocks[r.value].offset == addr
    ensures r.Some? ==> forall k :: 0 <= k < r.value ==> blocks[k].offset != addr
    ensures r.None? ==> forall k :: 0 <= k < |blocks| ==> blocks[k].offset != addr
  {
    if |blocks| == 0 then None
    else if blocks[0].offset == addr then Some(0)
    else match IndexOf(blocks[1..], addr)
      case None => None
      case Some(k) => Some(k + 1)
  }

  /** The outcome of one allocation: the address handed out and the new layout. */
  datatype Grant = Grant(addr: nat, layout: Layout)

  /** First-fit placement of `need` bytes: carve the first free block that fits, or
      append a new block at the high edge when none does. */
  function Place(blocks: seq<Block>, used: nat, need: nat): Grant
  {
    match FirstFit(blocks, need)
      case Some(i) => Grant(blocks[i].offset, Layout(Split(blocks, i, need), used))
      case None => Grant(used, Layout(blocks + [Block(used, need, false)], used + need))
  }

  /** Releasing the block that starts at `addr` (when there is one), then trimming the tail. */
  function Freed(blocks: seq<Block>, used: nat, addr: nat): Layout
  {
    match IndexOf(blocks, addr)
      case Some(i) => TrimTail(Release(blocks, i), used)
      case None => TrimTail(blocks, used)
  }

  // ---------------------------------------------------------------------------
  // Lemmas about the block list

  /** Where the piece `s[k..]` of a tiling that stops at `stop` begins. */
  function Edge(s: seq<Block>, k: nat, stop: nat): nat
    requires k <= |s|
  {
    if k < |s| then s[k].offset else stop
  }

  lemma {:induction false} TilesAppend(a: seq<Block>, b: seq<Block>, start: nat, mid: nat, stop: nat)
    requires Tiles(a, start, mid) && Tiles(b, mid, stop)
    ensures Tiles(a + b, start, stop)
    decreases |a|
  {
    if |a| == 0 {
      assert a + b == b;
    } else {
      assert (a + b)[0] == a[0];
      assert (a + b)[1..] == a[1..] + b;
      TilesAppend(a[1..], b, End(a[0]), mid, stop);
    }
  }

  lemma {:induction false} TilesSplit(s: seq<Block>, k: nat, start: nat, stop: nat)
    requires Tiles(s, start, stop) && k <= |s|
    ensures Tiles(s[..k], start, Edge(s, k, stop)) && Tiles(s[k..], Edge(s, k, stop), stop)
    decreases k
  {
    if k == 0 {
      assert s[k..] == s;
    } else {
      TilesSplit(s[1..], k - 1, End(s[0]), stop);
      assert s[1..][..k - 1] == s[..k][1..];
      assert s[1..][k - 1..] == s[k..];
      assert Edge(s[1..], k - 1, stop) == Edge(s, k, stop);
    }
  }

  /** Every block of a tiling of `[start, stop)` is non-empty and lies inside it. */
  lemma {:induction false} TilesBounds(s: seq<Block>, start: nat, stop: nat)
    requires Tiles(s, start, stop)
    ensures start <= stop
    ensures forall k :: 0 <= k < |s| ==> s[k].size > 0 && start <= s[k].offset && End(s[k]) <= stop
    ensures |s| > 0 ==> s[0].offset == start && End(s[|s| - 1]) == stop
    decreases |s|
  {
    if |s| > 0 {
      TilesBounds(s[1..], End(s[0]), stop);
      assert forall k :: 1 <= k < |s| ==> s[k] == s[1..][k - 1];
      if |s| > 1 {
        assert s[|s| - 1] == s[1..][|s| - 2];
      }
    }
  }

  /** In a tiling, a block ends no later than any later block starts. */
  lemma TilesOrdered(s: seq<Block>, start: nat, stop: nat, i: nat, j: nat)
    requires Tiles(s, start, stop) && i < j < |s|
    ensures End(s[i]) <= s[j].offset
  {
    TilesSplit(s, j, start, stop);
    TilesBounds(s[..j], start, s[j].offset);
    assert s[..j][i] == s[i];
  }

  lemma {:induction false} CoalescedAppend(a: seq<Block>, b: seq<Block>)
    requires Coalesced(a) && Coalesced(b)
    requires |a| > 0 && |b| > 0 ==> !(a[|a| - 1].free && b[0].free)
    ensures Coalesced(a + b)
    decreases |a|
  {
    if |a| == 0 {
      assert a + b == b;
    } else {
      assert (a + b)[1..] == a[1..] + b;
      if |a| > 1 {
        assert a[1..][|a| - 2] == a[|a| - 1];
        assert (a + b)[1] == a[1];
      } else if |b| > 0 {
        assert (a + b)[1] == b[0];
      }
      CoalescedAppend(a[1..], b);
    }
  }

  lemma {:induction false} CoalescedSplit(s: seq<Block>, k: nat)
    requires Coalesced(s) && k <= |s|
    ensures Coalesced(s[..k]) && Coalesced(s[k..])
    ensures 0 < k < |s| ==> !(s[k - 1].free && s[k].free)
    decreases k
  {
    if k == 0 {
      assert s[k..] == s;
    } else {
      CoalescedSplit(s[1..], k - 1);
      assert s[1..][..k - 1] == s[..k][1..];
      assert s[1..][k - 1..] == s[k..];
      if 1 < k < |s| {
        assert s[1..][k - 2] == s[k - 1] && s[1..][k - 1] == s[k];
      }
      if k >= 2 {
        assert s[..k][0] == s[0] && s[..k][1] == s[1];
      }
    }
  }

  lemma {:induction false} ConcatAllocated(a: seq<Block>, b: seq<Block>)
    ensures AllocatedSet(a + b) == AllocatedSet(a) + AllocatedSet(b)
  {
    if |a| > 0 {
      assert (a + b)[1..] == a[1..] + b;
      ConcatAllocated(a[1..], b);
    } else {
      assert a + b == b;
    }
  }

  /** The allocated set holds exactly the blocks of the list that are not free. */
  lemma {:induction false} AllocatedMember(blocks: seq<Block>, x: Block)
    ensures x in AllocatedSet(blocks) <==> x in blocks && !x.free
  {
    if |blocks| > 0 {
      AllocatedMember(blocks[1..], x);
      assert x in blocks <==> x == blocks[0] || x in blocks[1..];
    }
  }

  /** On a well-formed list the allocated byte ranges never overlap. */
  lemma WellFormedDisjoint(blocks: seq<Block>, used: nat)
    requires WellFormed(blocks, used)
    ensures AllocatedDisjoint(blocks)
  {
    forall a, b | a in AllocatedSet(blocks) && b in AllocatedSet(blocks) && a != b
      ensures End(a) <= b.offset || End(b) <= a.offset
    {
      AllocatedMember(blocks, a);
      AllocatedMember(blocks, b);
      var i :| 0 <= i < |blocks| && blocks[i] == a;
      var j :| 0 <= j < |blocks| && blocks[j] == b;
      if i < j {
        TilesOrdered(blocks, 0, used, i, j);
      } else {
        TilesOrdered(blocks, 0, used, j, i);
      }
    }
  }

  /** Splices `x` between two pieces whose ends meet it. */
  lemma Assemble(a: seq<Block>, x: Block, c: seq<Block>, start: nat, stop: nat)
    requires Tiles(a, start, x.offset) && x.size > 0 && Tiles(c, End(x), stop)
    requires Coalesced(a) && Coalesced(c)
    requires |a| > 0 ==> !(a[|a| - 1].free && x.free)
    requires |c| > 0 ==> !(x.free && c[0].free)
    ensures Tiles(a + [x] + c, start, stop) && Coalesced(a + [x] + c)
    ensures AllocatedSet(a + [x] + c) == AllocatedSet(a) + AllocatedSet([x]) + AllocatedSet(c)
    ensures (a + [x] + c)[|a| + |c|] == if |c| > 0 then c[|c| - 1] else x
  {
    var xc := [x] + c;
    assert xc[0] == x && xc[1..] == c;
    assert Tiles(xc, x.offset, stop);
    if |c| > 0 {
      assert xc[1] == c[0];
    }
    assert Coalesced(xc);
    TilesAppend(a, xc, start, x.offset, stop);
    CoalescedAppend(a, xc);
    assert a + [x] + c == a + xc;
    ConcatAllocated(a, [x]);
    ConcatAllocated(a + [x], c);
    if |c| > 0 {
      assert (a + xc)[|a| + |c|] == c[|c| - 1];
    }
  }

  /** The pieces of a well-formed list around block `i`. */
  lemma Pieces(blocks: seq<Block>, used: nat, i: nat) returns (pre: seq<Block>, b: Block, post: seq<Block>)
    requires WellFormed(blocks, used) && i < |blocks|
    ensures pre == blocks[..i] && b == blocks[i] && post == blocks[i + 1..]
    ensures blocks == pre + [b] + post
    ensures Tiles(pre, 0, b.offset) && b.size > 0 && Tiles(post, End(b), used)
    ensures Coalesced(pre) && Coalesced(post)
    ensures |pre| > 0 ==> !(pre[|pre| - 1].free && b.free)
    ensures |post| > 0 ==> !(b.free && post[0].free) && !post[|post| - 1].free
    ensures |post| == 0 ==> !b.free
    ensures AllocatedSet(blocks) == AllocatedSet(pre) + AllocatedSet([b]) + AllocatedSet(post)
    ensures forall k :: 0 <= k < |pre| ==> pre[k].offset < b.offset
    ensures forall k :: 0 <= k < |post| ==> post[k].offset > b.offset
  {
    pre, b, post := blocks[..i], blocks[i], blocks[i + 1..];
    assert blocks == pre + [b] + post;
    TilesSplit(blocks, i, 0, used);
    var tail := blocks[i..];
    assert tail[0] == b && tail[1..] == post;
    CoalescedSplit(blocks, i);
    CoalescedSplit(blocks, i + 1);
    if |pre| > 0 {
      assert pre[|pre| - 1] == blocks[i - 1];
    }
    if |post| > 0 {
      assert post[0] == blocks[i + 1];
      assert post[|post| - 1] == blocks[|blocks| - 1];
    }
    ConcatAllocated(pre, [b]);
    ConcatAllocated(pre + [b], post);
    TilesBounds(pre, 0, b.offset);
    TilesBounds(post, End(b), used);
  }

  /** Taking a free block that fits keeps the list well formed and hands out exactly one
      new block `[offset, offset + size)`; every other allocated block is kept. */
  lemma SplitPreserves(blocks: seq<Block>, used: nat, i: nat, size: nat)
    requires WellFormed(blocks, used)
    requires i < |blocks| && Fits(blocks[i], size) && size > 0
    ensures WellFormed(Split(blocks, i, size), used)
    ensures Block(blocks[i].offset, size, false) !in AllocatedSet(blocks)
    ensures AllocatedSet(Split(blocks, i, size)) == AllocatedSet(blocks) + {Block(blocks[i].offset, size, false)}
  {
    var pre, nb, c := SplitParts(blocks, used, i, size);
    Joined(Split(blocks, i, size), pre, nb, c, used);
    AllocatedSingle(nb);
  }

  /** `Split` as the new allocated block between the blocks before it and the remainder. */
  lemma SplitParts(blocks: seq<Block>, used: nat, i: nat, size: nat) returns (pre: seq<Block>, nb: Block, c: seq<Block>)
    requires WellFormed(blocks, used)
    requires i < |blocks| && Fits(blocks[i], size) && size > 0
    ensures nb == Block(blocks[i].offset, size, false)
    ensures Split(blocks, i, size) == pre + [nb] + c
    ensures Tiles(pre, 0, nb.offset) && Tiles(c, End(nb), used)
    ensures Coalesced(pre) && Coalesced(c)
    ensures |c| > 0 && !c[|c| - 1].free
    ensures AllocatedSet(blocks) == AllocatedSet(pre) + AllocatedSet(c)
    ensures nb !in AllocatedSet(pre) && nb !in AllocatedSet(c)
  {
    var b, post;
    pre, b, post := Pieces(blocks, used, i);
    nb := Block(b.offset, size, false);
    c := CarvedTail(pre, b, post, size, used);
    AllocatedSingle(b);
    assert nb !in pre && nb !in post;
    AllocatedMember(pre, nb);
    AllocatedMember(post, nb);
  }

  lemma AllocatedSingle(x: Block)
    ensures AllocatedSet([x]) == if x.free then {} else {x}
  {
    assert [x][1..] == [];
  }

  /** A list spliced together from well-behaved pieces whose tail block is allocated. */
  lemma Joined(r: seq<Block>, a: seq<Block>, x: Block, c: seq<Block>, used: nat)
    requires r == a + [x] + c
    requires Tiles(a, 0, x.offset) && x.size > 0 && Tiles(c, End(x), used)
    requires Coalesced(a) && Coalesced(c)
    requires |a| > 0 ==> !(a[|a| - 1].free && x.free)
    requires |c| > 0 ==> !(x.free && c[0].free) && !c[|c| - 1].free
    requires |c| == 0 ==> !x.free
    ensures WellFormed(r, used)
    ensures AllocatedSet(r) == AllocatedSet(a) + AllocatedSet([x]) + AllocatedSet(c)
  {
    Assemble(a, x, c, 0, used);
  }

  /** What follows the new allocated block after `Split`: the free remainder, if any,
      then the unchanged successors. */
  lemma CarvedTail(pre: seq<Block>, b: Block, post: seq<Block>, size: nat, used: nat) returns (c: seq<Block>)
    requires Tiles(post, End(b), used) && Coalesced(post)
    requires Fits(b, size) && size > 0
    requires |post| > 0 && !post[0].free
    ensures Split(pre + [b] + post, |pre|, size) == pre + [Block(b.offset, size, false)] + c
    ensures Tiles(c, b.offset + size, used) && Coalesced(c)
    ensures |c| > 0 && c[|c| - 1] == post[|post| - 1]
    ensures AllocatedSet(c) == AllocatedSet(post)
  {
    SplitShape(pre, b, post, size);
    if b.size > size {
      var rest := Block(b.offset + size, b.size - size, true);
      c := [rest] + post;
      assert c[0] == rest && c[1..] == post && c[1] == post[0];
      assert c[|c| - 1] == post[|post| - 1];
      assert AllocatedSet([rest]) == {};
      ConcatAllocated([rest], post);
    } else {
      c := post;
    }
  }

  lemma SplitShape(pre: seq<Block>, b: Block, post: seq<Block>, size: nat)
    requires size <= b.size
    ensures Split(pre + [b] + post, |pre|, size) ==
            if b.size > size then pre + [Block(b.offset, size, false)] + ([Block(b.offset + size, b.size - size, true)] + post)
            else pre + [Block(b.offset, size, false)] + post
  {
    var blocks := pre + [b] + post;
    assert blocks[|pre|] == b && blocks[..|pre|] == pre && blocks[|pre| + 1..] == post;
  }

  /** Appending a new allocated block at `used` keeps the list well formed. */
  lemma AppendPreserves(blocks: seq<Block>, used: nat, size: nat)
    requires WellFormed(blocks, used) && size > 0
    ensures WellFormed(blocks + [Block(used, size, false)], used + size)
    ensures Block(used, size, false) !in AllocatedSet(blocks)
    ensures AllocatedSet(blocks + [Block(used, size, false)]) == AllocatedSet(blocks) + {Block(used, size, false)}
  {
    var nb := Block(used, size, false);
    assert [nb][1..] == [];
    assert Tiles([nb], used, used + size);
    TilesAppend(blocks, [nb], 0, used, used + size);
    CoalescedAppend(blocks, [nb]);
    ConcatAllocated(blocks, [nb]);
    assert AllocatedSet([nb]) == {nb};
    TilesBounds(blocks, 0, used);
    assert nb !in blocks;
    AllocatedMember(blocks, nb);
  }

  /** Freeing an allocated block keeps the tiling and the merge invariant, and removes
      exactly that block from the allocated ones. */
  lemma ReleasePreserves(blocks: seq<Block>, used: nat, i: nat)
    requires WellFormed(blocks, used) && i < |blocks| && !blocks[i].free
    ensures Tiles(Release(blocks, i), 0, used) && Coalesced(Release(blocks, i))
    ensures AllocatedSet(Release(blocks, i)) == AllocatedSet(blocks) - {blocks[i]}
  {
    var pre, m, rest := NextMerged(blocks, used, i);
    PrevMerged(pre, m, rest, used);
  }

  /** `MergeNext` leaves a free block `m` at position `i` between unchanged neighbours. */
  lemma NextMerged(blocks: seq<Block>, used: nat, i: nat) returns (pre: seq<Block>, m: Block, rest: seq<Block>)
    requires WellFormed(blocks, used) && i < |blocks| && !blocks[i].free
    ensures MergeNext(blocks, i) == pre + [m] + rest && |pre| == i
    ensures Tiles(pre, 0, m.offset) && m.free && m.size > 0 && Tiles(rest, End(m), used)
    ensures Coalesced(pre) && Coalesced(rest)
    ensures |rest| > 0 ==> !rest[0].free
    ensures AllocatedSet(blocks) - {blocks[i]} == AllocatedSet(pre) + AllocatedSet(rest)
  {
    var b, post;
    pre, b, post := Pieces(blocks, used, i);
    assert AllocatedSet([b]) == {b};
    assert b !in pre && b !in post;
    AllocatedMember(pre, b);
    AllocatedMember(post, b);
    assert AllocatedSet(blocks) - {b} == AllocatedSet(pre) + AllocatedSet(post);
    var mergeNext := |post| > 0 && post[0].free;
    m := if mergeNext then Block(b.offset, b.size + post[0].size, true) else b.(free := true);
    rest := if mergeNext then post[1..] else post;
    RestFacts(post, used, m, b, mergeNext, rest);
    if mergeNext {
      assert rest == blocks[i + 2..] && post[0] == blocks[i + 1];
    }
  }

  /** The part of the list after block `i` once it has absorbed a free successor. */
  lemma RestFacts(post: seq<Block>, used: nat, m: Block, b: Block, mergeNext: bool, rest: seq<Block>)
    requires Tiles(post, End(b), used) && Coalesced(post) && b.size > 0
    requires mergeNext == (|post| > 0 && post[0].free)
    requires m == if mergeNext then Block(b.offset, b.size + post[0].size, true) else b.(free := true)
    requires rest == if mergeNext then post[1..] else post
    ensures Tiles(rest, End(m), used) && Coalesced(rest) && m.free && m.size > 0
    ensures m.offset == b.offset
    ensures AllocatedSet(rest) == AllocatedSet(post)
    ensures |rest| > 0 ==> !rest[0].free
  {
    if mergeNext {
      assert End(m) == End(post[0]);
      if |rest| > 0 {
        assert rest[0] == post[1];
      }
      assert post == [post[0]] + rest;
      ConcatAllocated([post[0]], rest);
      assert AllocatedSet([post[0]]) == {};
    }
  }

  /** `MergePrev` at the block `m` keeps the tiling and the merge invariant. */
  lemma PrevMerged(pre: seq<Block>, m: Block, rest: seq<Block>, used: nat)
    requires Tiles(pre, 0, m.offset) && m.free && m.size > 0 && Tiles(rest, End(m), used)
    requires Coalesced(pre) && Coalesced(rest)
    requires |rest| > 0 ==> !rest[0].free
    ensures Tiles(MergePrev(pre + [m] + rest, |pre|), 0, used)
    ensures Coalesced(MergePrev(pre + [m] + rest, |pre|))
    ensures AllocatedSet(MergePrev(pre + [m] + rest, |pre|)) == AllocatedSet(pre) + AllocatedSet(rest)
  {
    var i := |pre|;
    MergePrevShape(pre, m, rest);
    if i > 0 && pre[i - 1].free {
      var q := pre[i - 1].(size := pre[i - 1].size + m.size);
      JoinPrev(pre, m, rest, used, q);
    } else {
      Assemble(pre, m, rest, 0, used);
      assert AllocatedSet([m]) == {};
    }
  }

  /** The free predecessor `pre[|pre| - 1]` absorbs `m`, giving `q`. */
  lemma JoinPrev(pre: seq<Block>, m: Block, rest: seq<Block>, used: nat, q: Block)
    requires Tiles(pre, 0, m.offset) && m.free && m.size > 0 && Tiles(rest, End(m), used)
    requires Coalesced(pre) && Coalesced(rest)
    requires |rest| > 0 ==> !rest[0].free
    requires |pre| > 0 && pre[|pre| - 1].free
    requires q == pre[|pre| - 1].(size := pre[|pre| - 1].size + m.size)
    ensures Tiles(pre[..|pre| - 1] + [q] + rest, 0, used)
    ensures Coalesced(pre[..|pre| - 1] + [q] + rest)
    ensures AllocatedSet(pre[..|pre| - 1] + [q] + rest) == AllocatedSet(pre) + AllocatedSet(rest)
  {
    var p := pre[|pre| - 1];
    var front := pre[..|pre| - 1];
    FrontFacts(pre, p, front, m.offset);
    Assemble(front, q, rest, 0, used);
    assert AllocatedSet([q]) == {};
  }

  lemma MergePrevShape(pre: seq<Block>, m: Block, rest: seq<Block>)
    ensures MergePrev(pre + [m] + rest, |pre|) ==
            if |pre| > 0 && pre[|pre| - 1].free
            then pre[..|pre| - 1] + [pre[|pre| - 1].(size := pre[|pre| - 1].size + m.size)] + rest
            else pre + [m] + rest
  {
    var i := |pre|;
    var s := pre + [m] + rest;
    assert s[i] == m && s[i + 1..] == rest;
    if i > 0 {
      assert s[i - 1] == pre[i - 1] && s[..i - 1] == pre[..i - 1];
    }
  }

  /** The list before the free block `p` that ends a tiling of `[0, stop)`. */
  lemma FrontFacts(pre: seq<Block>, p: Block, front: seq<Block>, stop: nat)
    requires Tiles(pre, 0, stop) && Coalesced(pre)
    requires |pre| > 0 && p == pre[|pre| - 1] && p.free && front == pre[..|pre| - 1]
    ensures Tiles(front, 0, p.offset) && End(p) == stop
    ensures Coalesced(front)
    ensures |front| > 0 ==> !front[|front| - 1].free
    ensures AllocatedSet(pre) == AllocatedSet(front)
  {
    var n := |pre|;
    TilesSplit(pre, n - 1, 0, stop);
    assert pre[n - 1..] == [p];
    assert [p][1..] == [];
    CoalescedSplit(pre, n - 1);
    if n > 1 {
      assert front[n - 2] == pre[n - 2];
    }
    assert pre == front + [p];
    ConcatAllocated(front, [p]);
    assert AllocatedSet([p]) == {};
  }

  /** Trimming the tail restores the tail invariant, lowers `used` to the end of the last
      remaining block (0 when none remains) and keeps every allocated block. */
  lemma {:induction false} TrimTailPreserves(blocks: seq<Block>, used: nat)
    requires Tiles(blocks, 0, used) && Coalesced(blocks)
    ensures WellFormed(TrimTail(blocks, used).blocks, TrimTail(blocks, used).used)
    ensures AllocatedSet(TrimTail(blocks, used).blocks) == AllocatedSet(blocks)
    ensures TrimTail(blocks, used).used <= used
    ensures TrimTail(blocks, used).blocks <= blocks
    decreases |blocks|
  {
    if |blocks| > 0 && blocks[|blocks| - 1].free {
      var n := |blocks|;
      var last := blocks[n - 1];
      var front := blocks[..n - 1];
      FrontFacts(blocks, last, front, used);
      TrimTailPreserves(front, last.offset);
      var r := TrimTail(front, last.offset);
      assert r.blocks == front[..|r.blocks|] == blocks[..|r.blocks|];
    }
  }

  /** The first block that fits, found by a scan from the front, is what `FirstFit` names. */
  lemma {:induction false} FirstFitAt(blocks: seq<Block>, size: nat, i: nat)
    requires i < |blocks| && Fits(blocks[i], size)
    requires forall k :: 0 <= k < i ==> !Fits(blocks[k], size)
    ensures FirstFit(blocks, size) == Some(i)
  {
    if i > 0 {
      FirstFitAt(blocks[1..], size, i - 1);
    }
  }

  /** The first block at `addr`, found by a scan from the front, is what `IndexOf` names. */
  lemma {:induction false} IndexOfAt(blocks: seq<Block>, addr: nat, i: nat)
    requires i < |blocks| && blocks[i].offset == addr
    requires forall k :: 0 <= k < i ==> blocks[k].offset != addr
    ensures IndexOf(blocks, addr) == Some(i)
  {
    if i > 0 {
      IndexOfAt(blocks[1..], addr, i - 1);
    }
  }

  /** An allocation keeps the list well formed, hands out a fresh block of exactly `need`
      bytes inside the partition, keeps every other allocated block, and grows the
      partition only when no free block fits, and then by exactly `need`. */
  lemma PlacePreserves(blocks: seq<Block>, used: nat, need: nat)
    requires WellFormed(blocks, used) && need > 0
    ensures var g := Place(blocks, used, need);
      WellFormed(g.layout.blocks, g.layout.used) &&
      Block(g.addr, need, false) !in AllocatedSet(blocks) &&
      AllocatedSet(g.layout.blocks) == AllocatedSet(blocks) + {Block(g.addr, need, false)} &&
      g.addr + need <= g.layout.used &&
      g.layout.used == (if FirstFit(blocks, need).Some? then used else used + need)
  {
    match FirstFit(blocks, need)
    case Some(i) =>
      SplitPreserves(blocks, used, i, need);
      TilesBounds(blocks, 0, used);
    case None =>
      AppendPreserves(blocks, used, need);
  }

  lemma PlaceWellFormed(blocks: seq<Block>, used: nat, need: nat)
    requires WellFormed(blocks, used) && need > 0
    ensures WellFormed(Place(blocks, used, need).layout.blocks, Place(blocks, used, need).layout.used)
  {
    PlacePreserves(blocks, used, need);
  }

  /** Freeing keeps the list well formed, never raises `used`, removes exactly the block
      at `addr` from the allocated ones, and changes nothing when no block starts there. */
  lemma FreedPreserves(blocks: seq<Block>, used: nat, addr: nat)
    requires WellFormed(blocks, used)
    requires forall k :: 0 <= k < |blocks| && blocks[k].offset == addr ==> !blocks[k].free
    ensures var r := Freed(blocks, used, addr);
      WellFormed(r.blocks, r.used) && r.used <= used &&
      AllocatedSet(r.blocks) == match IndexOf(blocks, addr)
        case Some(i) => AllocatedSet(blocks) - {blocks[i]}
        case None => AllocatedSet(blocks)
    ensures IndexOf(blocks, addr).None? ==> Freed(blocks, used, addr) == Layout(blocks, used)
  {
    match IndexOf(blocks, addr)
    case Some(i) =>
      ReleasePreserves(blocks, used, i);
      TrimTailPreserves(Release(blocks, i), used);
    case None =>
  }

  lemma PlaceFound(blocks: seq<Block>, used: nat, need: nat, i: nat)
    requires FirstFit(blocks, need) == Some(i)
    ensures Place(blocks, used, need) == Grant(blocks[i].offset, Layout(Split(blocks, i, need), used))
  {
  }

  lemma PlaceAppended(blocks: seq<Block>, used: nat, need: nat)
    requires FirstFit(blocks, need) == None
    ensures Place(blocks, used, need) == Grant(used, Layout(blocks + [Block(used, need, false)], used + need))
  {
  }

  lemma FreedFound(blocks: seq<Block>, used: nat, addr: nat, i: nat)
    requires IndexOf(blocks, addr) == Some(i)
    ensures Freed(blocks, used, addr) == TrimTail(Release(blocks, i), used)
  {
  }

  lemma FreedMissing(blocks: seq<Block>, used: nat, addr: nat)
    requires IndexOf(blocks, addr) == None
    ensures Freed(blocks, used, addr) == TrimTail(blocks, used)
  {
  }

  /** Recording a new value of `used` keeps `peak` the largest value seen so far. */
  lemma PeakStep(trace: seq<nat>, peak: nat, used: nat, peak': nat)
    requires |trace| > 0 && peak == SeqMax(trace)
    requires peak' == Max(peak, used)
    ensures peak' == SeqMax(trace + [used])
  {
    SeqMaxSnoc(trace, used);
  }

  /** The three request sizes of the reuse scenario, rounded. */
  lemma ReuseSizes()
    ensures AlignedSize(10) == 16 && AlignedSize(20) == 24 && AlignedSize(16) == 16
  {
    assert (10 - 1) % SizeLimit == 9 && (20 - 1) % SizeLimit == 19 && (16 - 1) % SizeLimit == 15;
    assert 9 / Alignment == 1 && 19 / Alignment == 2 && 15 / Alignment == 1;
  }

  /** The two first allocations: one block at 0, then one appended at 16. */
  lemma ReuseGrows()
    ensures Place([], 0, 16) == Grant(0, Layout([Block(0, 16, false)], 16))
    ensures Place([Block(0, 16, false)], 16, 24) ==
      Grant(16, Layout([Block(0, 16, false), Block(16, 24, false)], 40))
  {
    var one := [Block(0, 16, false)];
    assert FirstFit(one[1..], 24) == None;
    assert FirstFit(one, 24) == None;
  }

  /** Freeing offset 0 leaves a free hole before the second block; `used` stays 40. */
  lemma ReuseFrees()
    ensures Freed([Block(0, 16, false), Block(16, 24, false)], 40, 0) ==
      Layout([Block(0, 16, true), Block(16, 24, false)], 40)
  {
    var two := [Block(0, 16, false), Block(16, 24, false)];
    var holed := [Block(0, 16, true), Block(16, 24, false)];
    assert IndexOf(two, 0) == Some(0);
    assert two[..0] == [] && two[1..] == [Block(16, 24, false)];
    assert MergeNext(two, 0) == holed;
    assert Release(two, 0) == holed;
    assert TrimTail(holed, 40) == Layout(holed, 40);
  }

  /** The third allocation fits the hole exactly and reuses offset 0. */
  lemma ReuseRefills()
    ensures Place([Block(0, 16, true), Block(16, 24, false)], 40, 16) ==
      Grant(0, Layout([Block(0, 16, false), Block(16, 24, false)], 40))
  {
    var holed := [Block(0, 16, true), Block(16, 24, false)];
    assert FirstFit(holed, 16) == Some(0);
    assert holed[..0] == [] && holed[1..] == [Block(16, 24, false)];
  }

  /** The largest `used` over the scenario's four steps is 40. */
  lemma {:induction false} ReusePeak()
    ensures SeqMax([16, 40, 40, 40]) == 40
  {
    SeqMaxSnoc([16], 40);
    assert [16] + [40] == [16, 40];
    SeqMaxSnoc([16, 40], 40);
    assert [16, 40] + [40] == [16, 40, 40];
    SeqMaxSnoc([16, 40, 40], 40);
    assert [16, 40, 40] + [40] == [16, 40, 40, 40];
  }

  /** alloc(10) gets offset 0, alloc(20) offset 16, free(0, 10) leaves a free 16-byte
      hole at the front, and alloc(16) reuses offset 0 while `used` and the largest
      `used` seen stay at 40. */
  lemma ReuseScenario()
    ensures AlignedSize(10) == 16 && AlignedSize(20) == 24 && AlignedSize(16) == 16
    ensures Place([], 0, AlignedSize(10)) == Grant(0, Layout([Block(0, 16, false)], 16))
    ensures Place([Block(0, 16, false)], 16, AlignedSize(20)) ==
      Grant(16, Layout([Block(0, 16, false), Block(16, 24, false)], 40))
    ensures Freed([Block(0, 16, false), Block(16, 24, false)], 40, 0) ==
      Layout([Block(0, 16, true), Block(16, 24, false)], 40)
    ensures Place([Block(0, 16, true), Block(16, 24, false)], 40, AlignedSize(16)) ==
      Grant(0, Layout([Block(0, 16, false), Block(16, 24, false)], 40))
    ensures SeqMax([16, 40, 40, 40]) == 40
  {
    ReuseSizes();
    ReuseGrows();
    ReuseFrees();
    ReuseRefills();
    ReusePeak();
  }

  // The planner itself

  class Allocator {
    var blocks: seq<Block>
    var used: nat
    var peak: nat
    /** Set once the arena has been obtained from the runtime (the source's `ptr != nullptr`). */
    var committed: bool
    /** Size of the arena obtained from the runtime once committed. */
    var arenaBytes: nat
    /** Every value `used` has had, oldest first. */
    ghost var trace: seq<nat>

    ghost predicate Valid()
      reads this
    {
      WellFormed(blocks, used) &&
      |trace| > 0 && trace[|trace| - 1] == used && peak == SeqMax(trace)
    }

    constructor ()
      ensures Valid() && blocks == [] && used == 0 && peak == 0 && !committed
    {
      blocks, used, peak := [], 0, 0;
      committed, arenaBytes := false, 0;
      trace := [0];
    }

    /** First-fit allocation of `size` bytes, rounded up to the alignment. */
    method Alloc(size: nat) returns (addr: nat)
      requires Valid() && !committed
      requires 1 <= size <= SizeLimit - Alignment
      modifies this
      ensures Valid()
      ensures committed == old(committed) && arenaBytes == old(arenaBytes)
      ensures trace == old(trace) + [used]
      ensures Grant(addr, Layout(blocks, used)) == Place(old(blocks), old(used), AlignedSize(size))
      ensures peak == Max(old(peak), used)
    {
      var need := AlignedSize(size);
      addr := Reserve(need);
    }

    /** Places `need` bytes first-fit, growing the partition when no free block fits. */
    method Reserve(need: nat) returns (addr: nat)
      requires Valid() && need > 0
      modifies this
      ensures Valid()
      ensures committed == old(committed) && arenaBytes == old(arenaBytes)
      ensures trace == old(trace) + [used]
      ensures Grant(addr, Layout(blocks, used)) == Place(old(blocks), old(used), need)
      ensures peak == Max(old(peak), used)
    {
      ghost var g := Place(blocks, used, need);
      PlaceWellFormed(blocks, used, need);
      var fit := FindFit(need);
      match fit {
        case Some(i) =>
          PlaceFound(blocks, used, need, i);
          addr := blocks[i].offset;
          Take(i, need);
        case None =>
          PlaceAppended(blocks, used, need);
          addr := used;
          blocks := blocks + [Block(addr, need, false)];
          used := used + need;
          if used > peak {
            peak := used;
          }
      }
      assert Grant(addr, Layout(blocks, used)) == g;
      trace := trace + [used];
      PeakStep(old(trace), old(peak), used, peak);
    }

    /** Scans the list from the front for the first free block of at least `need` bytes. */
    method FindFit(need: nat) returns (r: Option<nat>)
      ensures r == FirstFit(blocks, need)
    {
      var i := 0;
      while i < |blocks|
        invariant 0 <= i <= |blocks|
        invariant forall k :: 0 <= k < i ==> !Fits(blocks[k], need)
      {
        if blocks[i].free && blocks[i].size >= need {
          FirstFitAt(blocks, need, i);
          return Some(i);
        }
        i := i + 1;
      }
      return None;
    }

    /** Returns the block starting at `addr` to the free pool; `size` plays no part. */
    method Free(addr: nat, size: nat)
      requires Valid() && !committed
      requires forall k :: 0 <= k < |blocks| && blocks[k].offset == addr ==> !blocks[k].free
      modifies this
      ensures Valid()
      ensures committed == old(committed) && arenaBytes == old(arenaBytes)
      ensures peak == old(peak)
      ensures trace == old(trace) + [used]
      ensures Layout(blocks, used) == Freed(old(blocks), old(used), addr)
    {
      ghost var r := Freed(blocks, used, addr);
      FreedPreserves(blocks, used, addr);
      var at := FindBlock(addr);
      if at.Some? {
        FreedFound(blocks, used, addr, at.value);
        Coalesce(at.value);
      } else {
        FreedMissing(blocks, used, addr);
      }
      Trim();
      assert Layout(blocks, used) == r;
      trace := trace + [used];
      PeakStep(old(trace), old(peak), used, peak);
    }

    /** Scans the list from the front for the block that starts at `addr`. */
    method FindBlock(addr: nat) returns (r: Option<nat>)
      ensures r == IndexOf(blocks, addr)
    {
      var i := 0;
      while i < |blocks|
        invariant 0 <= i <= |blocks|
        invariant forall k :: 0 <= k < i ==> blocks[k].offset != addr
      {
        if blocks[i].offset == addr {
          IndexOfAt(blocks, addr, i);
          return Some(i);
        }
        i := i + 1;
      }
      return None;
    }

    /** Splits the free block `i` so that its first `need` bytes become allocated. */
    method Take(i: nat, need: nat)
      requires i < |blocks| && need <= blocks[i].size
      modifies this
      ensures blocks == Split(old(blocks), i, need)
      ensures used == old(used) && peak == old(peak) && trace == old(trace)
      ensures committed == old(committed) && arenaBytes == old(arenaBytes)
    {
      var b := blocks[i];
      if b.size > need {
        var rest := Block(b.offset + need, b.size - need, true);
        blocks := blocks[..i] + [b.(size := need), rest] + blocks[i + 1..];
      }
      blocks := blocks[i := blocks[i].(free := false)];
    }

    /** Marks block `i` free and merges it with free neighbours on either side. */
    method Coalesce(i: nat)
      requires i < |blocks|
      modifies this
      ensures blocks == Release(old(blocks), i)
      ensures used == old(used) && peak == old(peak) && trace == old(trace)
      ensures committed == old(committed) && arenaBytes == old(arenaBytes)
    {
      ghost var s0 := blocks;
      blocks := blocks[i := blocks[i].(free := true)];
      assert blocks[..i] == s0[..i] && blocks[i + 1..] == s0[i + 1..];
      if i + 1 < |blocks| && blocks[i + 1].free {
        assert blocks[i + 2..] == s0[i + 2..];
        blocks := blocks[..i] + [blocks[i].(size := blocks[i].size + blocks[i + 1].size)] + blocks[i + 2..];
      } else {
        assert blocks == blocks[..i] + [blocks[i]] + blocks[i + 1..];
      }
      assert blocks == MergeNext(s0, i);
      ghost var s1 := blocks;
      if i > 0 && blocks[i - 1].free {
        blocks := blocks[..i - 1] + [blocks[i - 1].(size := blocks[i - 1].size + blocks[i].size)] + blocks[i + 1..];
      }
      assert blocks == MergePrev(s1, i);
    }

    /** Pops free blocks off the tail of the list, lowering `used` by their sizes. */
    method Trim()
      modifies this
      ensures Layout(blocks, used) == TrimTail(old(blocks), old(used))
      ensures peak == old(peak) && trace == old(trace)
      ensures committed == old(committed) && arenaBytes == old(arenaBytes)
    {
      while |blocks| > 0
        invariant TrimTail(blocks, used) == TrimTail(old(blocks), old(used))
        invariant peak == old(peak) && trace == old(trace)
        invariant committed == old(committed) && arenaBytes == old(arenaBytes)
        decreases |blocks|
      {
        var last := blocks[|blocks| - 1];
        if last.free {
          used := if last.size <= used then used - last.size else 0;
          blocks := blocks[..|blocks| - 1];
        } else {
          break;
        }
      }
    }

    /** Commits the arena: the first call obtains `peak` bytes, later calls change nothing. */
    method GetPtr() returns (bytes: nat)
      requires Valid()
      modifies this
      ensures Valid() && committed
      ensures arenaBytes == (if old(committed) then old(arenaBytes) else old(peak))
      ensures bytes == arenaBytes
      ensures blocks == old(blocks) && used == old(used) && peak == old(peak) && trace == old(trace)
    {
      if !committed {
        committed := true;
        arenaBytes := peak;
      }
      bytes := arenaBytes;
    }
  }
}
