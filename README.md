# TinyInfiniTensor core, modelled in Dafny

TinyInfiniTensor is a small deep-learning inference framework. A computation graph
holds tensors and operators (matrix product, transpose, concatenation). The graph
can:

- wire a new operator to its operands;
- sort its operators topologically;
- apply two rewrite rules until neither fires: remove a transpose followed by its
  inverse, and fold a last-two-axes transpose into a matrix product's transpose flags;
- infer every tensor's shape;
- check its own consistency;
- plan every tensor's offset in one arena. To do this it computes each tensor's last
  use, allocates an operator's outputs, and frees its inputs at their last use.

The arena planner is an offset allocator. It keeps an ordered list of blocks, and
uses first-fit with splitting, coalescing on release, and trimming of free tail
blocks. It records the peak extent, which is the size of the single buffer
requested at commit time. Beside the graph sit the operators' shape inference
(multidirectional broadcasting, axis normalisation, the MatMul, Transpose and
Concat rules) and the index arithmetic of the CPU transpose and concat kernels.

The model is split into modules that follow the source:

| module | file | models |
|---|---|---|
| `Common` | common.dfy | `Option`, `Result`, products and maxima of shapes |
| `Allocation` | allocator.dfy | the block list, its invariants, and class `Allocator` (`Alloc`, `Free`, `GetPtr`) |
| `OperatorUtils` | operator_utils.dfy | broadcasting, `get_real_axis`, `locate_index`, `delocate_index` |
| `Permutations` | permutations.dfy | permutations, applying one to a shape, inverses |
| `MatmulOp`, `TransposeOp`, `ConcatOp` | matmul.dfy, transpose.dfy, concat.dfy | constructors' stored attributes and `inferShape` |
| `TransposeKernel`, `ConcatKernel` | transpose_kernel.dfy, concat_kernel.dfy | the CPU kernels' index logic and copy loops over arrays of a generic element type |
| `GraphModel` | graph_model.dfy | tensors and operators as objects in a heap addressed by integer ids; edge wiring; graph validity |
| `Schedule` | graph_schedule.dfy | what a topological order is, and why a sweep that places nothing proves there is none |
| `Rewrite` | graph_rewrite.dfy | the two rewrite rules, their fixpoint, and a termination measure |
| `ShapeInference` | graph_shapes.dfy | per-operator shape inference over the graph, and lookup by family id |
| `Memory` | graph_memory.dfy | last use, and the offset planner's walk over the operators |
| `Graphs` | graph.dfy | class `Graph`, whose methods update the heap, tensor list, operator list and `sorted` flag in place |

Pointers become integer ids. A `Heap` maps ids to tensor and operator objects; an id
with no entry stands for a null pointer. Fatal `IT_ASSERT`s have two models:

- in the shape rules and `checkValid`, an `Err(AssertFailed)` result;
- in the allocator and index utilities, a precondition.

An absent `optional` shape is an `Err(NoShape)` result.

## Model

| member | source | states |
|---|---|---|
| Allocation.AlignedSize | src/core/allocator.cc:142-145 | the rounded size is a multiple of 8 and below 2^64; for 1 <= size <= 2^64-8 it lies in [size, size+8); size 0 wraps to 0 as in `size_t` arithmetic |
| Allocation.FirstFit | src/core/allocator.cc:36-57 | returns the index of the first free block large enough, with no earlier block fitting, or none when no block fits |
| Allocation.IndexOf | src/core/allocator.cc:86-89 | returns the index of the first block starting at the address, or none when no block starts there |
| Allocation.PlacePreserves | src/core/allocator.cc:36-75 | allocation keeps the blocks tiling [0, used), coalesced and with an allocated tail; it adds exactly one new allocated block of the requested size inside the partition; `used` grows, by exactly the size, only when no free block fits |
| Allocation.FreedPreserves | src/core/allocator.cc:86-129 | release keeps the list well formed, never raises `used`, removes exactly the released block from the allocated ones, and changes nothing when no block starts at the address |
| Allocation.PeakStep | src/core/allocator.cc:69-73 | updating the peak with the new `used` keeps the peak equal to the maximum of every `used` seen |
| Allocation.ReuseSizes | src/core/allocator.cc:142-145 | requests of 10, 20 and 16 bytes are rounded to 16, 24 and 16 |
| Allocation.ReuseGrows | src/core/allocator.cc:59-75 | on an empty list alloc(10) gets offset 0; alloc(20) then finds no fitting free block and is appended at 16, raising `used` to 40 |
| Allocation.ReuseFrees | src/core/allocator.cc:78-129 | free(0, 10) leaves a free 16-byte block at the front; the tail is allocated, so `used` stays 40 |
| Allocation.ReuseRefills | src/core/allocator.cc:36-57 | alloc(16) then takes the free front block exactly and returns offset 0, with `used` unchanged |
| Allocation.ReusePeak | src/core/allocator.cc:69-73 | over that scenario the largest `used` seen, hence the peak, is 40 |
| Allocation.ReuseScenario | src/core/allocator.cc:26-129 | the whole scenario: alloc(10) -> 0, alloc(20) -> 16, free(0, 10), alloc(16) -> 0, reusing the hole while `used` and the peak stay 40 |
| Allocation.Allocator.constructor | src/core/allocator.cc:6-16 | a fresh allocator has no blocks, `used` and `peak` 0, and is not committed |
| Allocation.Allocator.Alloc | src/core/allocator.cc:26-76 | with the arena uncommitted: the returned offset and new layout are those of first-fit placement of the aligned size; the peak becomes max(peak, used); the invariants are kept |
| Allocation.Allocator.Reserve | src/core/allocator.cc:36-75 | places an already aligned request: split of the first fitting block, or append at the tail; peak updated; invariants kept |
| Allocation.Allocator.FindFit | src/core/allocator.cc:36-42 | the search loop finds the first fitting block |
| Allocation.Allocator.Take | src/core/allocator.cc:43-52 | the found block becomes an allocated block of the exact size, followed by a free remainder when it was larger |
| Allocation.Allocator.Free | src/core/allocator.cc:78-130 | with the arena uncommitted and the block at the address allocated: the new layout is the released, merged and trimmed one; the peak is unchanged; the invariants are kept |
| Allocation.Allocator.FindBlock | src/core/allocator.cc:86-89 | the search loop finds the first block at the given offset |
| Allocation.Allocator.Coalesce | src/core/allocator.cc:90-110 | the block is marked free and merged with a free successor, then with a free predecessor |
| Allocation.Allocator.Trim | src/core/allocator.cc:116-129 | free blocks are popped from the tail, and `used` shrinks by their sizes |
| Allocation.Allocator.GetPtr | src/core/allocator.cc:132-140 | the first call commits `peak` bytes; after that the call is idempotent; the layout is unchanged |
| OperatorUtils.BroadcastDims | src/utils/operator_utils.cc:14-38 | the result has rank max(rank A, rank B); counting from the right, each dim is the other side's dim when one side is 1 or missing, and the common value when both agree |
| OperatorUtils.BroadcastStretches | src/utils/operator_utils.cc:20-37 | each operand's dim equals the result's dim or is 1 |
| OperatorUtils.BroadcastCommutes | src/utils/operator_utils.cc:14-38 | compatibility and the broadcast shape do not depend on operand order |
| OperatorUtils.BroadcastExamples | src/utils/operator_utils.cc:10-38 | (8,1,6,1) with (7,1,5) gives (8,7,6,5); (3,4) with (5) is incompatible |
| OperatorUtils.InferBroadcast | src/utils/operator_utils.cc:6-41 | the loop succeeds exactly on compatible shapes, returns the broadcast shape, and otherwise fails its assertion |
| OperatorUtils.RealAxis | src/utils/operator_utils.cc:43-53 | for rank >= 1 and -rank <= axis < rank, the result is in [0, rank) and is axis or axis+rank |
| OperatorUtils.Digits | src/utils/operator_utils.cc:55-65 | the row-major digits of n have one entry per dim, each below its dim |
| OperatorUtils.LocateIndex | src/utils/operator_utils.cc:55-65 | the loop that divides n down from the last dim yields the row-major digits of n |
| OperatorUtils.DelocateIndex | src/utils/operator_utils.cc:67-78 | for equal lengths, the accumulation loop yields the sum of (idx[i] mod shape[i]) * stride[i] |
| OperatorUtils.LocateDelocate | src/utils/operator_utils.cc:55-78 | with row-major strides, delocating the located digits of n gives back n |
| OperatorUtils.DelocateLocate | src/utils/operator_utils.cc:55-78 | an in-range coordinate vector is recovered from its row-major offset |
| OperatorUtils.DelocateBound | src/utils/operator_utils.cc:67-78 | the row-major offset of an in-range coordinate vector is below the product of the shape |
| Permutations.Inverse | src/operators/transpose.cc:35-42 | every permutation has an inverse permutation; they compose to the identity both ways |
| Permutations.PermuteMultiset | src/operators/transpose.cc:44-50 | permuting a shape rearranges its dims: the multiset of dims is unchanged |
| Permutations.ProductPermute | src/operators/transpose.cc:44-50 | permuting a shape keeps its element count |
| MatmulOp.InferShape | src/operators/matmul.cc:24-107 | the computed result agrees with the reference definition of the inference rule |
| MatmulOp.InferMeaning | src/operators/matmul.cc:38-106 | inference succeeds exactly when both ranks are >= 2, the contraction sizes agree and the batch dims are compatible. The output has rank max(rankA, rankB) and ends in [m, n]. m comes from A, n and k from B, each swapped by its flag |
| MatmulOp.BatchIsBroadcast | src/operators/matmul.cc:78-100 | with positive batch dims, batch compatibility and the batch dims are exactly multidirectional broadcasting of the batch prefixes |
| MatmulOp.SwapFlipsTransA | src/operators/matmul.cc:43-60 | swapping A's last two dims is the same as negating `transA` |
| MatmulOp.SwapFlipsTransB | src/operators/matmul.cc:43-60 | swapping B's last two dims is the same as negating `transB` |
| MatmulOp.InferExample | src/operators/matmul.cc:70-72 | (2,3)x(3,4) without transposes gives (2,4) and records m, n, k = 2, 4, 3 |
| TransposeOp.Identity | src/operators/transpose.cc:10-16 | the default permutation is a permutation of the rank |
| TransposeOp.StoredPermutation | src/operators/transpose.cc:5-23 | an empty `permute` stores the identity; a non-empty one of length rank is stored as given; any other length fails the assertion |
| TransposeOp.InferShape | src/operators/transpose.cc:25-51 | succeeds exactly when the permutation has length rank, entries in range and no repeats; the output is the input permuted, out[i] = in[perm[i]] |
| TransposeOp.IdentityKeepsShape | src/operators/transpose.cc:10-16 | the identity permutation leaves a shape unchanged |
| TransposeOp.InversePermutesBack | src/core/graph.cc:180-188 | if perm2[perm1[i]] == i everywhere, perm2 is a permutation, and applying perm1 then perm2 restores the shape |
| TransposeOp.InferShapeExample | src/operators/transpose.cc:44-50 | (2,3) with [1,0] gives (3,2) |
| TransposeOp.SwapPermutes | src/core/graph.cc:23-37 | a permutation that fixes all but the last two axes and swaps those two is valid and swaps a shape's last two dims |
| ConcatOp.StoredAxis | src/operators/concat.cc:5-10 | the stored axis is the first input's rank-normalised axis, in [0, rank) |
| ConcatOp.InferShape | src/operators/concat.cc:12-40 | succeeds exactly on a non-empty input list with dim in range, equal ranks and equal dims off the axis; the output is the first shape with the axis dim replaced by the sum of the inputs' axis dims |
| ConcatOp.ConcatCount | src/operators/concat.cc:21-39 | the output's element count is the sum of the inputs' element counts |
| ConcatOp.InferShapeExample | src/operators/concat.cc:21-39 | (2,3) and (2,5) on axis 1 give (2,8) |
| TransposeKernel.Idx2Pos | src/kernels/cpu/transpose.cc:6-15 | for idx below the element count, the loop yields the row-major coordinates of idx |
| TransposeKernel.OutDims | src/kernels/cpu/transpose.cc:30-32 | outDim[i] = inDim[perm[i]] |
| TransposeKernel.Strides | src/kernels/cpu/transpose.cc:35-41 | the backward loop yields row-major strides |
| TransposeKernel.InputIndex | src/kernels/cpu/transpose.cc:45-53 | the inner loop computes the input index from the output index's coordinates weighted by the permuted input strides |
| TransposeKernel.SourceOffset | src/kernels/cpu/transpose.cc:45-55 | the input offset read for an output offset is below the element count |
| TransposeKernel.CopyReadMeaning | src/kernels/cpu/transpose.cc:45-55 | the kernel's running index equals the row-major offset, in the input, of the output element's coordinates mapped back through the permutation |
| TransposeKernel.SourceOffsetInjective | src/kernels/cpu/transpose.cc:45-55 | different output offsets read different input offsets |
| TransposeKernel.SourceOffsetOnto | src/kernels/cpu/transpose.cc:45-55 | every input offset is read by some output offset, so the copy is a bijection |
| TransposeKernel.Compute | src/kernels/cpu/transpose.cc:19-56 | every output element is written from the input element at its source offset |
| TransposeKernel.Transpose2D | src/kernels/cpu/transpose.cc:45-55 | for a 2-D [1,0] permutation, out[j,i] = in[i,j] |
| ConcatKernel.CopyBlock | src/kernels/cpu/concat.cc:45-51 | one input's copy writes each of its elements to its slot in every outer block and leaves every other output element unchanged |
| ConcatKernel.BlockOffsetInner | src/kernels/cpu/concat.cc:17-20 | the product of the output dims after the axis |
| ConcatKernel.DimOffset | src/kernels/cpu/concat.cc:23-26 | the sum of the preceding inputs' axis dims |
| ConcatKernel.LocalBlockOffset | src/kernels/cpu/concat.cc:27-30 | the product of the input's dims from the axis on; the loop ends correctly for axis 0 |
| ConcatKernel.OuterSize | src/kernels/cpu/concat.cc:37-39 | corrected: the product of the input's dims before the axis |
| ConcatKernel.OuterSizeAsWrittenAgrees | src/kernels/cpu/concat.cc:37-39 | as written, the loop agrees with the product of dims before the axis whenever the axis does not exceed the number of inputs |
| ConcatKernel.OuterSizeAsWrittenReadsPast | src/kernels/cpu/concat.cc:37-39 | as written, two inputs on axis 3 make the loop read a third input that does not exist |
| ConcatKernel.Compute | src/kernels/cpu/concat.cc:8-53 | with the corrected outer size, each element of each input lands at its slot in the output (outer block, then the input's offset along the axis) |
| ConcatKernel.SlotsDisjoint | src/kernels/cpu/concat.cc:45-51 | different input elements land in different output slots |
| ConcatKernel.SlotsCover | src/kernels/cpu/concat.cc:45-51 | every output slot is the slot of some input element, so the output is fully written |
| ConcatKernel.Concat2D | src/kernels/cpu/concat.cc:45-51 | on axis 1 of two 2-D inputs, output row r is A's row r followed by B's row r |
| GraphModel.Without | src/core/graph.cc:207-212 | erase-remove deletes every occurrence of the value and keeps every other one |
| GraphModel.Replace | src/core/graph.cc:202 | replacing an input keeps the list's length, and the replaced id no longer occurs |
| GraphModel.Rearranged | src/core/graph.cc:127-128 | a list without repeats, included in a list no longer than itself, is that list rearranged |
| GraphModel.UniqueShorter | src/core/graph.cc:102-126 | a list without repeats is no longer than any list containing its entries |
| GraphModel.ConnectLinks | src/core/graph.cc:39-67 | after wiring: each input lists the operator as a reader and links both ways with its writer; each output has the operator as writer and links both ways with its readers; nothing else is rewired |
| GraphModel.ConnectKeepsValid | src/core/graph.cc:39-67 | wiring a fresh operator whose operands are in the graph keeps the graph valid |
| Schedule.TopoSnoc | src/core/graph.cc:104-120 | appending a ready operator to a topologically ordered prefix keeps it ordered |
| Schedule.Unstuck | src/core/graph.cc:102-126 | if any topological order exists, a partial placement always leaves some unplaced operator ready, so a sweep that places nothing proves there is no order |
| Schedule.Sweep | src/core/graph.cc:106-121 | one sweep only appends to the placed list: the operators it places come after the ones already placed |
| Schedule.SweepExample | src/core/graph.cc:102-126 | with a reader listed before its writer, the first sweep places the writer and the second places the reader |
| Schedule.CycleUnschedulable | src/core/graph.cc:122-125 | two operators that each read the other's output cannot be ordered |
| Rewrite.FirstInverse | src/core/graph.cc:143-193 | the first operator at which the inverse-transpose rule applies, or none anywhere |
| Rewrite.FirstFoldInput | src/core/graph.cc:234-242 | the first input of a product written by a last-two-axes swap, or none |
| Rewrite.FirstFold | src/core/graph.cc:227-242 | the first (operator, input) pair at which the fold rule applies, in list order, or none anywhere |
| Rewrite.EraseFacts | src/core/graph.cc:195-212 | removing an inverse pair keeps the graph ranked, strictly shortens the operator list, and adds no operator or tensor |
| Rewrite.FoldFacts | src/core/graph.cc:244-266 | folding a transpose keeps the graph ranked, does not lengthen the operator list, strictly lowers the weight measure, and adds no operator or tensor |
| Rewrite.Optimized | src/core/graph.cc:131-276 | the repeated rewrite ends in a ranked graph where neither rule applies, with no new operators or tensors |
| Rewrite.OptimizedIsFixpoint | src/core/graph.cc:131-276 | after optimisation no operator is the start of an inverse pair and no product input can be folded |
| Rewrite.OptimizeIdempotent | src/core/graph.cc:131-276 | optimising an optimised graph changes nothing |
| Rewrite.InverseKeepsShapes | src/core/graph.cc:180-204 | the tensor that replaces the second transpose's output has that output's shape |
| Rewrite.FoldKeepsShape | src/core/graph.cc:244-262 | folding a transpose into a product does not change the product's inferred shape or m, n, k |
| Rewrite.SelfLoopRefires | src/core/graph.cc:236-266 | on a graph where a transpose reads its own output, the fold rule still applies after it fires |
| ShapeInference.FindByFuid | src/core/graph.cc:278-288 | returns a listed tensor with the family id, or none when no listed tensor has it |
| ShapeInference.FindOwnFuid | src/core/graph.cc:278-288 | with distinct family ids, looking up a listed tensor's id returns that tensor |
| ShapeInference.ReshapeSets | src/core/graph.cc:300-307 | setting an output's new shape through lookup by family id changes that tensor's dims only |
| ShapeInference.ReshapeAllSets | src/core/graph.cc:298-308 | setting all outputs succeeds and gives each its inferred shape |
| ShapeInference.InferStepSetsOutputs | src/core/graph.cc:292-309 | one operator's step succeeds exactly when its shape rule succeeds with one shape per output; each output then has its shape, and every other tensor keeps its dims |
| ShapeInference.ReshapeFailureStays | src/core/graph.cc:296-308 | once a reshape fails, the remaining outputs do not recover it |
| ShapeInference.InferKeepsWiring | src/core/graph.cc:290-311 | shape inference changes no edge of the graph |
| ShapeInference.InferKeepsValid | src/core/graph.cc:290-311 | shape inference keeps a valid graph valid |
| ShapeInference.TransposeStepExample | src/core/graph.cc:290-311 | a (2,3) tensor through a [1,0] transpose gives its output shape (3,2) |
| Memory.LastUseFacts | src/core/graph.cc:318-331 | a tensor is recorded exactly when some operator reads or writes it, and the index recorded is that of the last such operator |
| Memory.LastUseAt | src/core/graph.cc:318-331 | the same for one tensor |
| Memory.HeldBlockAllocated | src/core/allocator.cc:90 | the block at a held tensor's offset is allocated, so releasing it passes the allocator's assertion |
| Memory.AllocOutputsHolds | src/core/graph.cc:341-346 | allocating an operator's outputs keeps the plan consistent with the allocator |
| Memory.AllocOutputsRecords | src/core/graph.cc:341-346 | allocating an operator's outputs holds and records exactly those tensors in addition |
| Memory.FreeInputsHolds | src/core/graph.cc:349-355 | releasing inputs at their last use keeps the plan consistent with the allocator |
| Memory.FreeInputsReleases | src/core/graph.cc:349-355 | corrected release: keeps every offset and releases only inputs whose last use is the current index (each at most once, and only when it holds a block) |
| Memory.PlanUpToHolds | src/core/graph.cc:336-356 | the walk over any prefix of the operators keeps the plan consistent |
| Memory.PlanUpToRecords | src/core/graph.cc:336-356 | after k operators, exactly the outputs of those operators have an offset |
| Memory.AllocatedHolds | src/core/graph.cc:341-346 | the state while an operator runs is consistent |
| Memory.LiveApart | src/core/graph.cc:336-356 | two different held tensors occupy byte ranges that do not overlap |
| Memory.OperandsApart | src/core/graph.cc:336-356 | corrected planner: while an operator runs, any two different operands that some operator wrote have offsets with non-overlapping byte ranges |
| Memory.HeldAtUse | src/core/graph.cc:349-354 | a written operand of an operator still holds its block while that operator runs |
| Memory.AllocOutputsKeeps | src/core/graph.cc:340-345 | allocating other tensors leaves a recorded offset unchanged |
| Memory.AddrKept | src/core/graph.cc:336-356 | with one writer per tensor, an output keeps the offset it got while its writer ran through every later step |
| Memory.SameAtEnd | src/core/graph.cc:336-356 | with one writer per tensor, a produced operand's final offset is the one it holds while its reader runs |
| Memory.FinalApart | src/core/graph.cc:336-356 | with one writer per tensor, the final offsets of two different produced operands of one operator have non-overlapping byte ranges |
| Memory.TopoProduced | src/core/graph.cc:315 | in a topological order, every input whose writer is in the list was produced earlier |
| Memory.GraphInputFreedAtZero | src/core/graph.cc:349-354 | as written, on x -> transpose -> y -> transpose -> z the graph input x is released at offset 0. That frees y's block while y is still read, and z is then placed over y |
| Memory.ChainKeepsInputBlock | src/core/graph.cc:349-354 | corrected, on the same graph y keeps offset 0 and z gets offset 8 |
| Memory.RepeatedInputFreedTwice | src/core/graph.cc:349-354 | as written, on x -> transpose -> y; y times y gives z; z joined with x gives w (x stays live to the end), the product releases y twice at its last use; the second release fails the allocator's assertion |
| Graphs.IsSwapLast2Dims | src/core/graph.cc:23-37 | true exactly for a transpose whose permutation fixes all but the last two axes and swaps those two |
| Graphs.CheckInverse | src/core/graph.cc:180-188 | the loop decides perm2[perm1[i]] == i for every position of perm1 |
| Graphs.AllListed | src/core/graph.cc:403-434 | the membership loop decides that every entry occurs in the pool |
| Graphs.Graph.AddTensor | src/core/graph.cc:375-395 | the tensor is appended; nothing else changes |
| Graphs.Graph.AddOperatorAndConnect | src/core/graph.cc:39-67 | the heap becomes the wired heap, the operator is appended, and `sorted` is cleared |
| Graphs.Graph.IsReady | src/core/graph.cc:106-116 | decides whether every input has no writer or an already placed writer |
| Graphs.Graph.SweepPass | src/core/graph.cc:105-121 | one pass of the sweep: the result is the sweep function's, stays repeat-free and topologically ordered, and when it places nothing, every unplaced operator has an unplaced writer |
| Graphs.Graph.TopoSort | src/core/graph.cc:92-129 | a sorted graph succeeds unchanged. Otherwise it succeeds exactly when the operators can be ordered, and exactly when the repeated sweeps place every operator. On success the list is the order the sweeps build, a repeat-free rearrangement in topological order, and `sorted` is set; on failure nothing changes |
| Graphs.Graph.InverseAtOp | src/core/graph.cc:146-193 | decides whether the inverse-transpose rule applies at an operator |
| Graphs.Graph.FindInverse | src/core/graph.cc:143-218 | finds the first operator where the inverse rule applies |
| Graphs.Graph.ApplyInverse | src/core/graph.cc:195-212 | the graph becomes the one with the inverse pair removed and its readers rewired |
| Graphs.Graph.FindFold | src/core/graph.cc:227-242 | finds the first (operator, input) pair where the fold rule applies |
| Graphs.Graph.ApplyFold | src/core/graph.cc:244-266 | the graph becomes the one with the transpose folded into the product |
| Graphs.Graph.Optimize | src/core/graph.cc:131-276 | on a ranked graph, the result of the repeated rewrite is the optimised graph, a fixpoint of both rules |
| Graphs.Graph.GetTensor | src/core/graph.cc:278-288 | returns the listed tensor with the family id, or none |
| Graphs.Graph.OperatorShapes | src/core/graph.cc:294-296 | the operator's inferred output shapes; a product records its m, n, k |
| Graphs.Graph.InferOne | src/core/graph.cc:292-309 | one operator's shape step: succeeds exactly when the step function does, with that heap |
| Graphs.Graph.ShapeInfer | src/core/graph.cc:290-311 | succeeds exactly when inference over all operators does, leaving its resulting heap |
| Graphs.Graph.CheckValid | src/core/graph.cc:401-444 | returns true exactly on a valid graph, and otherwise fails its assertion |
| Graphs.Graph.TensorsLinked | src/core/graph.cc:403-413 | decides that no tensor is unconnected and every writer and reader is listed |
| Graphs.Graph.OperatorsLinked | src/core/graph.cc:414-434 | decides that every operand, predecessor and successor is listed |
| Graphs.Graph.FuidsUnique | src/core/graph.cc:435-442 | decides that the listed tensors have distinct family ids |
| Graphs.Graph.LastUses | src/core/graph.cc:318-331 | computes the last-use map |
| Graphs.Graph.AllocateOutputs | src/core/graph.cc:341-346 | allocates operator i's outputs with the allocator, in order, recording their offsets |
| Graphs.Graph.ReleaseInputs | src/core/graph.cc:349-355 | releases operator i's inputs that end there, as the corrected planner does |
| Graphs.Graph.PlanStep | src/core/graph.cc:338-355 | one operator of the planning walk |
| Graphs.Graph.PlanAll | src/core/graph.cc:336-356 | the planning walk over all operators, with the allocator's layout kept in step |
| Graphs.Graph.DataMalloc | src/core/graph.cc:313-373 | fails exactly when the graph cannot be sorted. Otherwise the operators are in the sweeps' order (unchanged when already sorted), the offsets are those of the corrected plan, and the arena is committed. While each operator runs, its written operands are pairwise apart (Memory.OperandsApart); the returned offsets keep that only when no tensor is written by two listed operators (Memory.FinalApart) |

## Left out

- Physical memory: the runtime's `alloc`/`dealloc`, the destructor, and the raw pointer from `getPtr`. The commit is a flag plus the committed byte count.
- The `printf` in `getPtr` (src/core/allocator.cc:137) and `info` (src/core/allocator.cc:147-151, src/core/graph.cc:372): output only.
- Blob creation and tensor data binding in `dataMalloc` (src/core/graph.cc:361-370). The result is the tensor-to-offset map.
- All `toString` methods, `device_to_str` and `get_kernel_attrs_str`: debug strings over enums defined elsewhere.
- Kernel data-type dispatch and registration: the kernels copy a generic element type.
- OpenMP parallel loops are sequential here. Each iteration writes a distinct output index, which `TransposeKernel.SourceOffsetInjective` and `ConcatKernel.SlotsDisjoint` state.
- Object creation: `addTensor(Shape, DataType)` and the operator constructors allocate new objects. Here they take ids of objects already in the heap. The runtime identity check in `addTensor` (src/core/graph.cc:380-388) is not modelled.
- `OperatorObj::replaceInput`, `addTarget` and the per-operator `inferShape` dispatch live in operator.cc and tensor.cc, which are not part of this model. They are given their evident meaning: replace in a list, append to a list, and the operator's own shape rule.
- Graphs.Graph.constructor: the graph's constructor is declared in graph.h, which is not part of this model. Here a graph starts from given objects, with empty lists, unsorted and with a fresh planner.
- A null tensor or operator (an id with no object) reads as an empty operand list, no writer and no readers.
- ConcatKernel.Compute: uses the corrected outer size (`ConcatKernel.OuterSize`). It agrees with the source only when the axis does not exceed the number of inputs (`ConcatKernel.OuterSizeAsWrittenAgrees`); beyond that the source reads past its input list (see Findings).
- OperatorUtils.BroadcastDims, OperatorUtils.InferBroadcast, MatmulOp.InferShape, ConcatKernel.DimOffset, ConcatKernel.OuterSize, OperatorUtils.DelocateIndex and the transpose kernel's index arithmetic: dims, products and offsets are unbounded integers. The source's `int` locals (operator_utils.cc:24-25, matmul.cc:43, 53, 82, kernels/cpu/concat.cc:23, 37) and `size_t` accumulations would narrow or wrap once a value exceeds 2^31-1 or 2^64-1; that narrowing and wrap-around are not modelled.
- Allocation.Allocator.Alloc: requires 1 <= size <= 2^64-8, and does not model requests whose aligned size wraps. Offsets and `used` are unbounded integers.
- Allocation.Allocator.Free: requires the block at the address to be allocated, as the source's assertion does (src/core/allocator.cc:90). `size` is ignored as in the source.
- Memory.FreeInputs: the corrected planner skips inputs that hold no block (graph inputs) and releases a repeated input once. The source does neither (see Findings). Graphs.Graph.DataMalloc models the corrected planner, not the as-written one.
- Graphs.Graph.DataMalloc: requires every output to have a byte size between 1 and 2^64-8 (`Memory.Sized`). It plans from the allocator's current layout.
- Memory.FinalApart: requires that no tensor is written by two listed operators (`Memory.SingleWriters`). Otherwise the final map keeps the later writer's offset, as `addrMap[t] = addr` does (src/core/graph.cc:345), and that offset may overlap operands of an earlier reader. `Memory.OperandsApart` still holds for each operator while it runs.
- OperatorUtils.Digits, OperatorUtils.Delocate, OperatorUtils.LocateIndex, OperatorUtils.DelocateIndex: require every dim to be positive; a zero dim makes the source divide or take a remainder by zero (src/utils/operator_utils.cc:60, 74). OperatorUtils.DelocateIndex also requires equal lengths of index, shape and stride, excluding the `IT_ASSERT` failures at src/utils/operator_utils.cc:71-72.
- Graphs.Graph.Optimize: requires a ghost rank on operators under which every operand's writer ranks below its readers. The rules need this to terminate: `Rewrite.SelfLoopRefires` shows a cyclic graph on which the fold rule fires for ever.
- Graphs.Graph.Optimize: every transpose is given at least one input and one output (`Rewrite.Arity`), which the rules read without checking.
- Rewrite.FoldKeepsShape: requires the product's other input to differ from the folded one.
- Rewrite.InversePerms / Graphs.CheckInverse: an entry of perm1 outside perm2 reads past the end of perm2 in the source; here it counts as not inverse.
- Rewrite rules: stale edges are kept as in the source. Rule B does not check that the transpose's output has only one reader. Neither rule updates predecessor or successor lists, or removes the deleted operator from its input's readers. The rewiring loop iterates a snapshot of the readers.
- TransposeOp.StoredPermutation: an empty `permute` stores the identity. The source writes it through a member declared in transpose.h, which is not part of this model.

## Findings

| source | as written | input that shows it | evidently intended | confidence | as-written member | corrected member |
|---|---|---|---|---|---|---|
| src/core/graph.cc:349-354 | an input that no operator writes has no recorded offset; `addrMap[t]` inserts 0, and its last use frees the block at offset 0 | x -> transpose -> y -> transpose -> z with 8-byte tensors: the first step frees y's block at offset 0 while y waits to be read, and z is placed at 0 over y | graph inputs, which own no arena block, are not released | not executed | Memory.GraphInputFreedAtZero | Memory.OperandsApart |
| src/core/graph.cc:349-354 with src/core/allocator.cc:90 | an operator that reads the same tensor twice frees it twice at its last use | x -> transpose -> y; y times y gives z; z joined with x gives w, every tensor 8 bytes. The join keeps x live, so y keeps offset 0 and z gets offset 8; at the product the first free of y releases offset 0, and the second finds that block already free and fails the allocator's assertion | each tensor is released once | not executed | Memory.RepeatedInputFreedTwice | Memory.FreeInputsHolds |
| src/kernels/cpu/concat.cc:37-39 | the outer-size loop's index shadows the input index, so it multiplies `iDims[j][j]`, input j's dim j, instead of the current input's dim j | two inputs of shape (2,2,2,1) on axis 3: the loop reads a third input that does not exist | the product of the current input's dims before the axis | not executed | ConcatKernel.OuterSizeAsWrittenReadsPast | ConcatKernel.OuterSize |
