# Five cores of TensorFlow, modelled and proved

A Dafny model of the parts of TensorFlow whose correctness rests on long chains of reasoning: the
arena memory planner and the delegate partitioner of TensorFlow Lite, the graph and session protocol
of the C API, the tensor encoding and session protocol of the Go binding, and the variable helpers
for plugin kernels. `dafny verify dfyconfig.toml` checks the whole project.

| file | component |
|---|---|
| `TfliteGraph.dfy` | graphs as the planner and the partitioner see them |
| `SimpleMemoryArena.dfy` | offset-based best-fit placement, commit and resolve |
| `ArenaPlanner.dfy` | lifetimes by reference counting; placing and resetting tensors |
| `ArenaCalls.dfy` | any sequence of calls made on one planner |
| `ArenaExecution.dfy` | running a graph in the arenas refines running it in separate memories |
| `ArenaInvoke.dfy` | a subgraph that prepares, places and runs its nodes with a planner |
| `PartitionSpec.dfy`, `Partitioner.dfy` | the greedy epoch loop and its invariant |
| `PartitionTheorems.dfy`, `PartitionMeaning.dfy` | boundaries, alternation, optimality; meaning is preserved |
| `PartitionFused.dfy` | meaning is preserved when each subset runs as one node behind its boundary lists |
| `GraphSession.dfy` | extending sessions, recording mutations, freeing the graph, in any interleaving |
| `GoTensor.dfy` | recursive row-major encoder, iterative decoder, their round trip |
| `GoSession.dfy` | Run, partial runs and Close by any number of threads |
| `FeedSort.dfy` | canonical order of feeds |
| `PartialShape.dfy` | what a partial tensor shape keeps of the sizes it is given |
| `ShapeList.dfy` | shape-list attributes from Go through C and back |
| `VariableCow.dfy` | copy-on-write variables refine plain values |
| `LockOrder.dfy`, `LockProtocol.dfy` | locking variables in order, alone and among concurrent kernels |

Code that updates fields in place is a class, loops are loops, and each method is proved against a
specification about which the lemmas then speak. Protocols are state machines whose steps are the
stretches between lock operations; a result about runs holds for every interleaving of any number of
threads.

## What the inputs are

- Kernels, node interpretations and update functions are arbitrary functions.
- Allocation failures, results of `Session::Extend`, of the cycle check and of `TF_CloseSession`, and
  the order of a Go map are parameters that may take any value.
- The refinement theorem and the meaning theorem need what the runtime promises of graphs: valid
  indices, at most one producer per tensor, producers before consumers, and each temporary of one
  node. The epoch loop and the lifetime computation are proved without the last three.
- In a run of the refinement theorem the planner is called again only for nodes that have not run and
  never again for node 0, allocations are reset only after a node not before the last one that ran,
  and a kernel writes as many bytes as its output tensors have. `ArenaInvoke.Subgraph.Invoke` shows
  that tensorflow/lite/core/subgraph.cc calls the planner in this way. What ops do (which tensors they
  make when they are prepared, what they leave in temporaries, when they resize a dynamic tensor) are
  parameters; an op that resizes a tensor that keeps its place, or writes a wrong number of bytes,
  makes the model fail.
- `ImportGraphDef` is modelled by what it promises: old ids keep their nodes, new ids follow.

## Where the code falls short of what is said or expected of it

The model follows the code.

- tensorflow/go/tensor.go:316-322 reckons with a zero in the last dimension only. A zero dimension
  before the last one, after a positive first one, does not survive decoding: `GoTensor.RoundTrip`
  gives the exact condition and `GoTensor.EmptyMiddleIsLost` an example that NewTensor accepts.
- tensorflow/go/shape.go:38-41 knows -1 as the only size of an unknown dimension, but accepts any, and so
  does setting a shape-list attribute. A size below -1 is read back as -1 from a small shape
  (`PartialShape.ComesBackChanged`) and makes reading fail where the shape was already out of line
  (`PartialShape.StoredButUnreadable`); `ShapeList.SetAndList` gives the exact conditions.
- tensorflow/lite/arena_planner.cc:322-330 does not place a persistent tensor again, so one that an op has
  enlarged keeps a range that is too small: `ArenaCalls.PersistentFitsExactlyWhen`,
  `ArenaCalls.EnlargedKeepsRange`.
- tensorflow/c/kernels_experimental.cc:262 promises that a mutex is locked once if inputs share it.
  Lines 276-279 take positions in the list of distinct mutexes for input numbers, so the promise holds
  exactly when the two agree, but for the place of a null (`LockOrder.LocksAllExactlyWhen`); otherwise
  a call may wait for itself (`LockOrder.SharedMutexIsMisread`,
  `LockProtocol.RepeatedMutexNeverReturns`).
- tensorflow/c/python_api.cc:63-73 changes a node without recording it, unlike its siblings;
  `GraphSession.RemovalHiddenExactlyWhen` says which sessions never learn of it, and
  `GraphSession.RemovalCanStayHidden` gives a run. It is not among the steps of the protocol for which
  `GraphSession.NoStaleCopyUnflagged` is proved.
- tensorflow/core/framework/resource_var.h:42-45 says that dense writes in copy-on-read mode need no
  copy; tensorflow/c/kernels_experimental.cc:105 copies in that mode.
- The loop variable at tensorflow/c/c_api.cc:254 is a pair that holds a reference to the map entry
  (tensorflow/core/lib/gtl/flatmap.h:163-164), so the assignment at line 257 updates the entry, as
  tensorflow/c/c_api_internal.h:83-87 says it should.

## Model

| member | source | states |
|---|---|---|
| `ArenaExecution.ArenaRefinesSeparateMemory` | tensorflow/lite/arena_planner.cc:82-333 | in every run that interleaves nodes with incremental ExecuteAllocations, during which ops may add temporaries, with ResetAllocationsAfter and with restarts, each node gets from the shared arenas the inputs it would get if every tensor had memory of its own, and so does the caller for the graph outputs |
| `ArenaExecution.PlanningMakesGoodStart` | tensorflow/lite/arena_planner.cc:186-220 | a first ExecuteAllocations, on tables that fit but may lack temporaries, leaves a state from which such runs may start |
| `ArenaExecution.PlanFits` | tensorflow/lite/arena_planner.cc:82-184 | PlanAllocations on a graph whose ops have not yet made their temporaries leaves tables that fit the final graph |
| `ArenaExecution.SameLifetime` | tensorflow/lite/arena_planner.cc:82-184 | the lifetimes it computes do not depend on which tensors exist yet |
| `ArenaExecution.PreparedNodeFits` | tensorflow/lite/core/subgraph.cc:1055-1107 | whatever a prepared node writes fits the places of its tensors, if it writes as many bytes as they have |
| `ArenaExecution.ExecuteMakesSized` | tensorflow/lite/arena_planner.cc:186-220 | after ExecuteAllocations up to a node, every tensor first needed by then is placed with its size |
| `ArenaExecution.ExecuteSizesTensor` | tensorflow/lite/arena_planner.cc:299-333 | the same for one tensor, be it placed now or before |
| `ArenaExecution.ResetKeepsSized` | tensorflow/lite/arena_planner.cc:67-80 | ResetAllocationsAfter a node leaves the nodes up to it prepared |
| `ArenaExecution.RunKeepsSized` | tensorflow/lite/arena_planner.cc:335-350 | writing tensors moves none |
| `ArenaExecution.RestartKeepsInv` | tensorflow/lite/core/subgraph.cc:1044-1049 | starting over with new inputs and kept variables keeps the agreement |
| `ArenaExecution.RestartKeepsTensor` | tensorflow/lite/core/subgraph.cc:1044-1049 | storing inputs changes no other tensor that has a value before the first node |
| `ArenaExecution.FromStartIsLive` | tensorflow/lite/arena_planner.cc:120-140 | such a tensor is never released |
| `ArenaExecution.TemporaryIsPrivate` | tensorflow/lite/arena_planner.cc:193-206 | a temporary is no input, output or variable and no node reads or produces it |
| `ArenaExecution.OwnerInIsOwner` | tensorflow/lite/arena_planner.cc:193-206 | the lifetime that ExecuteAllocations gives a temporary is that of its one node |
| `ArenaExecution.RunKeepsAgreement` | tensorflow/lite/arena_planner.cc:186-333 | along every run the tables keep fitting the lifetimes, tensors needed together stay apart, and every live tensor has the same contents in both machines |
| `ArenaExecution.RunKeepsInv` | tensorflow/lite/arena_planner.cc:299-333 | running one node in the arenas, scratch and in-place variable updates included, keeps that agreement |
| `ArenaExecution.RunKeepsTensor` | tensorflow/lite/arena_planner.cc:299-333 | after a node has run, every tensor still live, written or not, has equal contents in both machines |
| `ArenaExecution.InputsAgree` | tensorflow/lite/arena_planner.cc:82-184 | every input of the next node is live, so both machines read the same values |
| `ArenaExecution.NeededTogetherApart` | tensorflow/lite/arena_planner.cc:299-333 | a tensor the node writes and any other tensor alive at that node occupy disjoint memory |
| `ArenaExecution.ExecuteKeepsInv` | tensorflow/lite/arena_planner.cc:186-220 | ExecuteAllocations for nodes that have not run keeps the agreement although it may grow the tables, move tensors and grow buffers |
| `ArenaExecution.ExecuteKeepsTables` | tensorflow/lite/arena_planner.cc:190-206 | it grows the tables to the tensors there are now, gives temporaries the lifetime of their one node and changes no other lifetime |
| `ArenaExecution.ExecuteLeavesAlone` | tensorflow/lite/arena_planner.cc:299-333 | a tensor needed before the first node considered keeps its allocation |
| `ArenaExecution.SameBytes` | tensorflow/lite/simple_memory_arena.cc:112-137 | a tensor with the same allocation has the same bytes after both arenas were committed |
| `ArenaExecution.ResetKeepsInv` | tensorflow/lite/arena_planner.cc:67-80 | ResetAllocationsAfter a node not before the last one that ran keeps the agreement |
| `ArenaExecution.ResetLeavesAlone` | tensorflow/lite/arena_planner.cc:67-80 | it forgets no tensor that is needed up to that node |
| `ArenaExecution.ResetKeepsSound` | tensorflow/lite/arena_planner.cc:67-80 | what remains placed is unchanged and still apart |
| `ArenaExecution.ReadIsLive` | tensorflow/lite/arena_planner.cc:165-178 | a tensor that a node reads has not been released before |
| `ArenaExecution.OutputIsLive` | tensorflow/lite/arena_planner.cc:113-118 | a graph output is never released |
| `ArenaExecution.WrittenIsNeeded` | tensorflow/lite/arena_planner.cc:158-163 | a tensor that a node writes is within its lifetime at that node |
| `ArenaExecution.DefinedIsNeeded` | tensorflow/lite/arena_planner.cc:120-163 | a tensor that holds a value is no temporary and was due for allocation before the next node |
| `ArenaExecution.NotWrittenWasLive` | tensorflow/lite/arena_planner.cc:82-184 | a tensor live after a node that did not write it was live before it |
| `ArenaExecution.WritesAgree` | tensorflow/lite/arena_planner.cc:299-333 | writing the same values in the same order to disjoint places leaves any tensor with equal contents in both machines |
| `ArenaExecution.FetchAfterPut` | tensorflow/lite/arena_planner.cc:335-350 | a write is seen at its tensor and at no tensor apart from it |
| `ArenaExecution.BytesAfterWrite` | tensorflow/lite/arena_planner.cc:335-350 | the same for byte ranges of one buffer |
| `ArenaInvoke.Subgraph.Invoke` | tensorflow/lite/core/subgraph.cc:1028-1131 | on a real planner, whatever is prepared, placed and reset on the way, the caller finds in the graph outputs what the nodes compute in separate memories; with the default alignment it fails only if an op resizes what must stay or writes a wrong size |
| `ArenaInvoke.Subgraph.InvokeNext` | tensorflow/lite/core/subgraph.cc:1048-1128 | one round: prepare if due, run, reset if a dynamic tensor was resized; each a step of a run |
| `ArenaInvoke.Subgraph.PrepareNext` | tensorflow/lite/core/subgraph.cc:1050-1054 | ops are prepared exactly when the next node is not |
| `ArenaInvoke.Subgraph.PrepareOps` | tensorflow/lite/core/subgraph.cc:994-1026 | placing tensors in the middle of a run is a step of the run and prepares the nodes up to the last |
| `ArenaInvoke.Subgraph.Resized` | tensorflow/lite/core/subgraph.cc:1109-1127 | after a resize exactly the later nodes are to be prepared again, and their tensors are forgotten |
| `ArenaInvoke.Subgraph.RunNode` | tensorflow/lite/core/subgraph.cc:1055-1107 | a prepared node runs in both machines with equal inputs |
| `ArenaInvoke.Subgraph.AllocateTensors` | tensorflow/lite/core/subgraph.cc:672-715 | a plan is made once and its allocations forgotten later; then the first nodes are placed and both machines agree |
| `ArenaInvoke.Subgraph.Plan` | tensorflow/lite/core/subgraph.cc:963-969 | the tables fit, although temporaries may be missing |
| `ArenaInvoke.Subgraph.PlaceFirst` | tensorflow/lite/core/subgraph.cc:994-1026 | the first placement makes a good start |
| `ArenaInvoke.Subgraph.SetTensors` | tensorflow/lite/core/subgraph.cc:717-737 | inputs stored or variables reset: nothing else changes and the nodes start over |
| `ArenaInvoke.Subgraph.StoreAll` | tensorflow/lite/arena_planner.cc:335-350 | the bytes of the planner change as specified and its invariant is kept |
| `ArenaInvoke.Subgraph.Store` | tensorflow/lite/arena_planner.cc:335-350 | the same for one tensor |
| `ArenaInvoke.Subgraph.ValuesAgree` | tensorflow/lite/core/subgraph.cc:1055-1107 | what a node computes from the arenas is what it computes from separate memories |
| `ArenaInvoke.Subgraph.OutputsFound` | tensorflow/lite/core/subgraph.cc:1028-1131 | after the last node the arenas hold the graph outputs |
| `ArenaInvoke.AllocatedIsGood` | tensorflow/lite/core/subgraph.cc:994-1026 | freshly placed tensors make a good start with whatever bytes they hold |
| `ArenaInvoke.StartFits` | tensorflow/lite/core/subgraph.cc:717-737 | inputs and variables of the right size fit |
| `ArenaInvoke.NodeRan` | tensorflow/lite/core/subgraph.cc:1055-1107 | writing the values of a prepared node is a step of the run |
| `ArenaInvoke.PreparedAgain` | tensorflow/lite/core/subgraph.cc:994-1026 | placing again keeps the agreement and prepares the nodes |
| `ArenaInvoke.ResetAgain` | tensorflow/lite/core/subgraph.cc:1109-1127 | forgetting later tensors keeps the agreement |
| `ArenaInvoke.IndicesStayOk` | tensorflow/lite/core/subgraph.cc:963-969 | planning before ops have made their temporaries is within bounds |
| `ArenaCalls.PerformAll` | tensorflow/lite/arena_planner.cc:59-220 | any sequence of Plan, Execute, Reset and ResetAfter on a new planner: around every call each arena has registered exactly the nonempty entries of its kind, ranges with intersecting intervals are disjoint and persistent ranges pairwise disjoint; with the default alignment a call fails only if tensors were removed |
| `ArenaCalls.Perform` | tensorflow/lite/arena_planner.cc:59-220 | one call keeps the invariant of the planner and does to the table what it promises |
| `ArenaCalls.PersistentStays` | tensorflow/lite/arena_planner.cc:322-330 | a persistent tensor keeps its allocation through any calls until everything is reset |
| `ArenaCalls.PersistentFitsExactlyWhen` | tensorflow/lite/arena_planner.cc:322-330 | after ExecuteAllocations the range of a due persistent tensor has its size exactly if it had no range before or its size is unchanged |
| `ArenaCalls.EnlargedKeepsRange` | tensorflow/lite/arena_planner.cc:322-330 | a planner on which a persistent output of 8 bytes is placed, enlarged to 16 and placed again: its range keeps 8 bytes |
| `ArenaCalls.EnlargedHistory` | tensorflow/lite/arena_planner.cc:322-330 | the three calls of that run, one by one |
| `Lifetimes.LifetimesAreExact` | tensorflow/lite/arena_planner.cc:82-184 | on every graph a tensor is released if and only if it is read at or after its allocation, is no input, output or variable, and not all tensors are preserved; the release is at its last consumer, not before its allocation |
| `Lifetimes.DeallocStep` | tensorflow/lite/arena_planner.cc:165-178 | a node is the release node exactly if it reads the tensor, leaves it without pin or later reference, and the tensor was allocated; otherwise the release is decided by the nodes before it |
| `Lifetimes.FirstProducer` | tensorflow/lite/arena_planner.cc:158-163 | the first node below a bound that outputs the tensor, or kNodeNotAssigned if none does |
| `Lifetimes.LastConsumer` | tensorflow/lite/arena_planner.cc:165-178 | the last node below a bound that reads the tensor, or -1 if none does |
| `ArenaPlanner.Planner.constructor` | tensorflow/lite/arena_planner.cc:37-45 | empty tables and two empty arenas, all invariants holding |
| `ArenaPlanner.Planner.PlanAllocations` | tensorflow/lite/arena_planner.cc:82-184 | on every graph with valid indices it succeeds, so no check inside fires, and the tables hold the lifetimes of every tensor |
| `ArenaPlanner.Planner.ComputeLifetimes` | tensorflow/lite/arena_planner.cc:82-184 | the same after the reset: reference counts give first producer and last consumer |
| `ArenaPlanner.Planner.PlanNode` | tensorflow/lite/arena_planner.cc:155-179 | one node extends correct tables and counts by one plan position |
| `ArenaPlanner.Planner.AllocateAt` | tensorflow/lite/arena_planner.cc:92-100 | a tensor without allocation node gets this one, any other is left alone; fails exactly on a tensor released but never allocated |
| `ArenaPlanner.Planner.DeallocateAt` | tensorflow/lite/arena_planner.cc:102-111 | a tensor that was never allocated is left alone, any other gets this release node; fails exactly if it already had one |
| `ArenaPlanner.Planner.PinTensors` | tensorflow/lite/arena_planner.cc:113-140 | outputs, variables and inputs get one extra reference each occurrence, and the latter two allocation node 0 |
| `ArenaPlanner.Planner.PinFromStart` | tensorflow/lite/arena_planner.cc:120-140 | the loop over variables or inputs |
| `ArenaPlanner.Planner.CountReferences` | tensorflow/lite/arena_planner.cc:142-152 | adds to the pins the number of reads by all nodes |
| `ArenaPlanner.Planner.AllocateOutputs` | tensorflow/lite/arena_planner.cc:158-163 | the outputs of a node that had no allocation node get this one |
| `ArenaPlanner.Planner.ReleaseInputs` | tensorflow/lite/arena_planner.cc:165-178 | the inputs of a node are counted down and released exactly at zero |
| `ArenaPlanner.CountsCoverInputs` | tensorflow/lite/arena_planner.cc:165-178 | the counts never go below zero and no released tensor is read again |
| `ArenaPlanner.Planner.ResetAllocations` | tensorflow/lite/arena_planner.cc:59-65 | every tensor is unused and both arenas have an empty plan |
| `ArenaPlanner.Planner.ResetAllocationsAfter` | tensorflow/lite/arena_planner.cc:67-80 | exactly the non-persistent tensors first needed after the node are forgotten, pointers included; the arena keeps exactly the others and its bytes |
| `ArenaPlanner.Planner.Forget` | tensorflow/lite/arena_planner.cc:70-77 | one tensor leaves the arena and the table together |
| `ArenaPlanner.Planner.ExecuteAllocations` | tensorflow/lite/arena_planner.cc:186-220 | it succeeds unless the alignment exceeds that of the arena or tensors were removed; then temporaries have their lifetimes, due tensors are placed, all placed tensors point into their buffer and the invariant holds |
| `ArenaPlanner.Planner.AssignTemporaries` | tensorflow/lite/arena_planner.cc:193-206 | each temporary of the nodes considered lives at its node, the others keep their lifetimes |
| `ArenaPlanner.Planner.AssignTemporariesOf` | tensorflow/lite/arena_planner.cc:197-205 | the same for one node |
| `ArenaPlanner.Planner.PlaceDue` | tensorflow/lite/arena_planner.cc:190-208 | temporaries assigned, then the due tensors placed |
| `ArenaPlanner.Planner.CalculateAllocations` | tensorflow/lite/arena_planner.cc:299-333 | exactly the due tensors are placed anew, persistent ones only once; all others keep their place and nothing overlaps |
| `ArenaPlanner.Planner.CreateTensorAllocationVector` | tensorflow/lite/arena_planner.cc:258-297 | exactly the due tensors, each once, sorted by the comparator |
| `ArenaPlanner.InsertSorted` | tensorflow/lite/arena_planner.cc:260-297 | inserting a tensor keeps the order sorted and a permutation |
| `ArenaPlanner.NothingFollows` | tensorflow/lite/arena_planner.cc:260-285 | a tensor that does not go before the last of a sorted order goes before none of it |
| `ArenaPlanner.Planner.Unregister` | tensorflow/lite/arena_planner.cc:304-311 | the due non-persistent tensors leave the arena before any is placed |
| `ArenaPlanner.Planner.PlaceAll` | tensorflow/lite/arena_planner.cc:313-331 | all of them are placed one after the other, the invariant holding for those already done |
| `ArenaPlanner.Planner.PlaceOne` | tensorflow/lite/arena_planner.cc:313-331 | the switch on the allocation type of one tensor |
| `ArenaPlanner.Planner.PlaceInArena` | tensorflow/lite/arena_planner.cc:316-321 | a non-persistent tensor gets a free range for its interval and is registered |
| `ArenaPlanner.Planner.PlaceInPersistentArena` | tensorflow/lite/arena_planner.cc:322-330 | a persistent tensor gets a range for ever, once |
| `ArenaPlanner.Planner.CommitAndResolve` | tensorflow/lite/arena_planner.cc:209-217 | bytes below the high-water marks survive the commit and every tensor is resolved again |
| `ArenaPlanner.Planner.ResolveTensorAllocations` | tensorflow/lite/arena_planner.cc:211-217 | every placed tensor points at its range inside its buffer |
| `ArenaPlanner.Planner.ResolveTensorAllocation` | tensorflow/lite/arena_planner.cc:335-350 | the same for one tensor; no other pointer changes |
| `ArenaPlanner.Planner.ValidIsSound` | tensorflow/lite/arena_planner.cc:59-80 | the registered sets equal the nonempty entries of the table, hence tensors needed together are apart |
| `ArenaPlanner.RegisterOne` | tensorflow/lite/arena_planner.cc:313-331 | placing a tensor keeps the registered set equal to the table |
| `ArenaPlanner.UnregisterOne` | tensorflow/lite/arena_planner.cc:304-311 | removing a tensor keeps the registered set equal to the rest of the table |
| `ArenaPlanner.RegisteredApart` | tensorflow/lite/simple_memory_arena.cc:60-90 | two registered allocations with intersecting intervals are disjoint |
| `ArenaPlanner.IntervalsAgreeButForDue` | tensorflow/lite/arena_planner.cc:190-208 | new lifetimes of temporaries contradict the table only for tensors about to be placed again |
| `ArenaPlanner.ResizedKeepsTable` | tensorflow/lite/arena_planner.cc:190-192 | growing the table for new tensors registers nothing |
| `ArenaPlanner.TemporaryOwner` | tensorflow/lite/arena_planner.cc:193-206 | the last node of a range that has the tensor as a temporary |
| `SimpleMemoryArena.AlignTo` | tensorflow/lite/simple_memory_arena.cc:32-36 | the least multiple of the alignment not below the offset |
| `SimpleMemoryArena.PlacementIsFree` | tensorflow/lite/simple_memory_arena.cc:55-80 | the chosen offset is aligned, disjoint from every allocation whose interval intersects, and wastes less than one alignment above the occupied part |
| `SimpleMemoryArena.ScanKeepsInv` | tensorflow/lite/simple_memory_arena.cc:60-77 | the loop keeps a best gap that is free among the allocations seen |
| `SimpleMemoryArena.PlacementPrefersGaps` | tensorflow/lite/simple_memory_arena.cc:60-80 | if some gap below a meeting allocation is large enough a gap is used, otherwise the aligned end |
| `SimpleMemoryArena.ScanFindsGap` | tensorflow/lite/simple_memory_arena.cc:60-77 | the loop finds a gap exactly if there is one, and then one below some allocation |
| `SimpleMemoryArena.BetterKnowsGap` | tensorflow/lite/simple_memory_arena.cc:68-76 | one round of the loop knows a gap exactly if there is one so far |
| `SimpleMemoryArena.UpperBound` | tensorflow/lite/simple_memory_arena.cc:86-87 | the first position with a larger offset |
| `SimpleMemoryArena.Inserted` | tensorflow/lite/simple_memory_arena.cc:86-88 | the list with exactly one more element |
| `SimpleMemoryArena.InsertedAt` | tensorflow/lite/simple_memory_arena.cc:86-88 | where every element is after the insertion |
| `SimpleMemoryArena.InsertedKeepsOrder` | tensorflow/lite/simple_memory_arena.cc:86-88 | the list stays sorted by offset |
| `SimpleMemoryArena.InsertedKeepsApart` | tensorflow/lite/simple_memory_arena.cc:82-90 | a free range keeps all pairs with meeting intervals disjoint |
| `SimpleMemoryArena.InsertedKeepsTensors` | tensorflow/lite/simple_memory_arena.cc:86-88 | a new tensor keeps one entry per tensor |
| `SimpleMemoryArena.Without` | tensorflow/lite/simple_memory_arena.cc:98-107 | exactly the entries of other tensors |
| `SimpleMemoryArena.WithoutKeepsInv` | tensorflow/lite/simple_memory_arena.cc:98-107 | removal keeps order and disjointness |
| `SimpleMemoryArena.WithoutKeepsTensors` | tensorflow/lite/simple_memory_arena.cc:98-108 | with one entry per tensor at most one is removed, and one is if the tensor is present |
| `SimpleMemoryArena.Arena.constructor` | tensorflow/lite/simple_memory_arena.h:64-69 | an empty, uncommitted arena |
| `SimpleMemoryArena.Arena.FindOffset` | tensorflow/lite/simple_memory_arena.cc:55-80 | the loop computes the placement |
| `SimpleMemoryArena.Arena.Allocate` | tensorflow/lite/simple_memory_arena.cc:41-90 | fails exactly if the alignment is too large; registers an aligned range disjoint from all with intersecting intervals, nothing for size 0; bounds the high-water mark |
| `SimpleMemoryArena.Arena.EraseTensor` | tensorflow/lite/simple_memory_arena.cc:98-107 | the erasing loop keeps the other entries in order and counts the erased ones |
| `SimpleMemoryArena.Arena.Deallocate` | tensorflow/lite/simple_memory_arena.cc:92-110 | the entries of the tensor are gone; fails exactly if there was more than one |
| `SimpleMemoryArena.Arena.Commit` | tensorflow/lite/simple_memory_arena.cc:112-137 | the buffer is large enough, and a new one holds a copy of every byte below the high-water mark that the old one held |
| `SimpleMemoryArena.Arena.NewBlock` | tensorflow/lite/simple_memory_arena.cc:115-117 | a block of the size asked for, at any address |
| `SimpleMemoryArena.Arena.ResolveAlloc` | tensorflow/lite/simple_memory_arena.cc:139-152 | succeeds exactly if committed and within the buffer, giving base plus offset, null for size 0 |
| `SimpleMemoryArena.Arena.ClearPlan` | tensorflow/lite/simple_memory_arena.cc:154-159 | nothing is registered, the high-water mark is 0 |
| `SimpleMemoryArena.Arena.ReleaseBuffer` | tensorflow/lite/simple_memory_arena.cc:161-167 | no buffer and not committed, the plan unchanged |
| `PartitionMeaning.PartitionPreservesMeaning` | tensorflow/lite/graph_info.cc:52-94 | for every interpretation of nodes as functions, side-effecting ones threading a world, executing the nodes subset by subset ends with the tensors and the world of the original plan |
| `PartitionFused.FusedSubsetsPreserveMeaning` | tensorflow/lite/graph_info.cc:52-217 | running each subset as one node that sees only its input tensors and gives only its output tensors, all else in it being arbitrary, ends with the graph outputs and the world of the plan |
| `PartitionFused.FusedAgrees` | tensorflow/lite/graph_info.cc:88-196 | after each such node every tensor that is visible outside, and the world, are as if the nodes had run one by one |
| `PartitionFused.FusedStep` | tensorflow/lite/graph_info.cc:173-196 | one fused node keeps that |
| `PartitionFused.InsideAgrees` | tensorflow/lite/graph_info.cc:178-187 | inside a subset the nodes compute the same from its inputs alone |
| `PartitionFused.ReadsAreThere` | tensorflow/lite/graph_info.cc:178-187 | whatever a node reads is an input of its subset, absent, or produced in it before |
| `PartitionFused.EnteringIsVisible` | tensorflow/lite/graph_info.cc:188-195 | what enters a subset was given out by the subset that produced it |
| `PartitionFused.OutputIsVisible` | tensorflow/lite/graph_info.cc:96-106 | graph outputs are given out |
| `PartitionFused.ProducedInSlice` | tensorflow/lite/graph_info.cc:173-177 | a subset produces exactly the tensors of its epoch |
| `PartitionFused.SliceIsSubset` | tensorflow/lite/graph_info.cc:171-172 | the nodes of a subset are consecutive in the order of assignment |
| `PartitionFused.EarlierInSlice` | tensorflow/lite/graph_info.cc:145-158 | a producer of the same subset comes before its reader |
| `PartitionFused.NodeAgrees` | tensorflow/lite/graph_info.cc:137-201 | a node that reads the same writes the same |
| `PartitionMeaning.OrderComputesPlan` | tensorflow/lite/graph_info.cc:137-217 | the order of assignment computes what the plan computes |
| `PartitionMeaning.SchedulesAgree` | tensorflow/lite/graph_info.cc:137-217 | any two orders that cover the plan and respect producers and side effects compute the same |
| `PartitionMeaning.ScheduleComputesMeaning` | tensorflow/lite/graph_info.cc:137-217 | every such order gives each tensor the value that the dependencies alone determine |
| `PartitionMeaning.NodeSeesMeaning` | tensorflow/lite/graph_info.cc:145-158 | a node whose dependencies have run computes its dependency-determined value |
| `PartitionMeaning.InputHoldsMeaning` | tensorflow/lite/graph_info.cc:145-152 | so do its inputs hold theirs |
| `PartitionMeaning.HoldsAfterNode` | tensorflow/lite/graph_info.cc:173-177 | a node disturbs no tensor of another producer |
| `PartitionMeaning.EffectsInOrder` | tensorflow/lite/graph_info.cc:61-74 | in every such order the side effects done are those up to the last one |
| `PartitionMeaning.LastEffectIsControlDep` | tensorflow/lite/graph_info.cc:61-74 | the last side effect done is the control dependency of the next |
| `PartitionMeaning.PlanIsSchedule` | tensorflow/lite/graph_info.cc:61-83 | a topologically ordered plan is such an order |
| `PartitionTheorems.GreedyIsOptimal` | tensorflow/lite/graph_info.cc:88-94 | no dependency-respecting sequence of single-type groups is shorter if it starts with the same type, nor by more than one otherwise |
| `PartitionTheorems.GreedyIsEarliest` | tensorflow/lite/graph_info.cc:160-217 | each node is in a subset no later than the type changes of any such grouping up to its group, plus one if the first types differ |
| `PartitionTheorems.GreedyRespects` | tensorflow/lite/graph_info.cc:88-94 | the greedy result is itself such a grouping, so the bound is attained |
| `PartitionTheorems.TypesAlternate` | tensorflow/lite/graph_info.cc:160-171 | adjacent subsets have different types |
| `PartitionTheorems.TypeByParity` | tensorflow/lite/graph_info.cc:160-171 | so the parity of a subset gives its type |
| `PartitionTheorems.ChangesDecideType` | tensorflow/lite/graph_info.cc:160-171 | in any grouping the parity of type changes gives the type |
| `PartitionTheorems.BoundaryListsExact` | tensorflow/lite/graph_info.cc:98-196 | inputs are precisely the non-optional tensors read and not produced in the subset; outputs those produced in it and read later or graph outputs; both strictly ascending |
| `PartitionTheorems.EpochIsProducers` | tensorflow/lite/graph_info.cc:173-177 | the epoch of a tensor is that of the nodes producing it |
| `PartitionTheorems.ReadersComeAfter` | tensorflow/lite/graph_info.cc:145-152 | a tensor read outside its subset is read in a later one |
| `PartitionTheorems.DependenciesInEarlierSubsets` | tensorflow/lite/graph_info.cc:145-158 | producers and the previous side effect are in the same or an earlier subset |
| `PartitionTheorems.FirstOf` | tensorflow/lite/graph_info.cc:161-172 | each subset has a first node, all earlier ones being in earlier subsets |
| `PartitionSpec.TopologicalPlansComplete` | tensorflow/lite/graph_info.cc:88-94 | on a topologically ordered plan every node is assigned |
| `PartitionSpec.LeftOversDepend` | tensorflow/lite/graph_info.cc:88-94 | otherwise each node left over depends on another one left over |
| `PartitionSpec.DependenciesAreEarlier` | tensorflow/lite/graph_info.cc:61-74 | in a topologically ordered plan dependencies have smaller positions |
| `PartitionSpec.EndOfEpoch` | tensorflow/lite/graph_info.cc:204-217 | a pass that assigns nothing leaves the epoch exhausted: no node of its type is ready |
| `PartitionSpec.NewEpoch` | tensorflow/lite/graph_info.cc:205 | opening an empty subset keeps the invariant |
| `PartitionSpec.PopEpoch` | tensorflow/lite/graph_info.cc:88-94 | dropping the final empty subset leaves a finished partition |
| `PartitionSpec.AssignKeepsInv` | tensorflow/lite/graph_info.cc:163-196 | assigning a node keeps every invariant below |
| `PartitionSpec.AssignKeepsListed` | tensorflow/lite/graph_info.cc:171-172 | the subsets list, in order, each assigned node once |
| `PartitionSpec.AssignKeepsCut` | tensorflow/lite/graph_info.cc:171-172 | the cuts between subsets are the epochs |
| `PartitionSpec.AssignKeepsTyped` | tensorflow/lite/graph_info.cc:163-171 | each subset holds one type |
| `PartitionSpec.AssignKeepsTensors` | tensorflow/lite/graph_info.cc:173-177 | tensors follow the epoch of their producer |
| `PartitionSpec.AssignKeepsDependencies` | tensorflow/lite/graph_info.cc:145-158 | every node comes after its producers and its side-effect predecessor |
| `PartitionSpec.ReadyMeansDependenciesAssigned` | tensorflow/lite/graph_info.cc:145-158 | a ready node has all of them assigned |
| `PartitionSpec.AssignKeepsInputs` | tensorflow/lite/graph_info.cc:178-187 | input lists hold exactly the boundary tensors read |
| `PartitionSpec.AssignKeepsOutputs` | tensorflow/lite/graph_info.cc:188-195 | output lists hold exactly the tensors read from other subsets |
| `PartitionSpec.AssignKeepsExhausted` | tensorflow/lite/graph_info.cc:204-217 | earlier epochs stay exhausted |
| `PartitionSpec.ReadTensorsStay` | tensorflow/lite/graph_info.cc:173-196 | an assignment does not move tensors that were already read |
| `Partitioner.Partitioner.constructor` | tensorflow/lite/graph_info.cc:39-49 | a node has the partition type exactly if it is listed |
| `Partitioner.Partitioner.Partition` | tensorflow/lite/graph_info.cc:52-120 | on every graph the epoch loop ends with exhausted epochs, graph outputs are marked unless one was never produced, and lists sorted; with unique producers and a topologically ordered plan the result is a complete partition with all properties above |
| `Partitioner.Partitioner.Initialize` | tensorflow/lite/graph_info.cc:53-83 | nothing is assigned and the invariant holds, so it can be called again |
| `Partitioner.Partitioner.ChainEffects` | tensorflow/lite/graph_info.cc:61-74 | each side-effecting node depends on the previous one, other nodes on none |
| `Partitioner.Partitioner.MarkComputed` | tensorflow/lite/graph_info.cc:75-83 | a tensor is not ready exactly if some node produces it |
| `Partitioner.Partitioner.BuildNodeSubsets` | tensorflow/lite/graph_info.cc:88-94 | the epoch loop ends on every graph, cyclic ones included, with all epochs exhausted and what is left over waiting for what is left over |
| `Partitioner.Partitioner.BuildNodeSubset` | tensorflow/lite/graph_info.cc:204-217 | one epoch is exhausted and, if it has a node, fewer nodes are unassigned |
| `Partitioner.Partitioner.UpdateAll` | tensorflow/lite/graph_info.cc:208-215 | one pass either assigns something or shows that nothing is assignable |
| `Partitioner.Partitioner.UpdateNode` | tensorflow/lite/graph_info.cc:137-201 | true exactly if the node is unassigned, ready and of the type of the epoch; then it is assigned, otherwise nothing changes |
| `Partitioner.Partitioner.IsReady` | tensorflow/lite/graph_info.cc:141-158 | the checks of inputs and control dependency decide readiness |
| `Partitioner.Partitioner.Assign` | tensorflow/lite/graph_info.cc:163-196 | an assignable node is assigned and the invariant kept |
| `Partitioner.Partitioner.AssignInto` | tensorflow/lite/graph_info.cc:163-196 | node, tensors and boundary lists are updated as specified |
| `Partitioner.Partitioner.AssignOutputs` | tensorflow/lite/graph_info.cc:175-177 | exactly the outputs of the node move to the epoch |
| `Partitioner.Partitioner.RecordInputs` | tensorflow/lite/graph_info.cc:178-196 | the lists grow by exactly the inputs that cross a boundary |
| `Partitioner.Partitioner.RecordInput` | tensorflow/lite/graph_info.cc:180-196 | the same for one input |
| `Partitioner.Partitioner.MarkOutputs` | tensorflow/lite/graph_info.cc:96-106 | graph outputs are added to the subset of their epoch; impossible exactly if one was never produced |
| `Partitioner.Partitioner.SortLists` | tensorflow/lite/graph_info.cc:107-119 | lists become sorted and unique, all else unchanged |
| `Partitioner.SortedUnique` | tensorflow/lite/graph_info.cc:112-116 | strictly ascending with the same elements |
| `Partitioner.OutputsAreReady` | tensorflow/lite/graph_info.cc:96-106 | on topologically ordered plans every graph output has an epoch |
| `Partitioner.ListsAreComplete` | tensorflow/lite/graph_info.cc:96-119 | marking and sorting complete the partition |
| `Partitioner.FinishedListsBounded` | tensorflow/lite/graph_info.cc:96-119 | the boundary lists stay exact and become ascending |
| `GraphSession.DeliveredExactlyOnce` | tensorflow/c/c_api.cc:324-376 | in every interleaving the inner session holds exactly the live ops below last_num_graph_nodes, each once and in id order, whatever additions were rolled back or extensions failed |
| `GraphSession.NoStaleCopyUnflagged` | tensorflow/c/c_api.cc:250-265 | in every interleaving a delivered copy that differs from its node, once RecordMutation has visited the session, was flagged after delivery for the definition that the node has now, and since then a warning waits or a message was logged |
| `GraphSession.GraphFreedSafely` | tensorflow/c/c_api.cc:2266-2279 | the graph is freed at most once, only after the request, with no session registered and no call under way, and it is freed when these hold |
| `GraphSession.GraphLockComesFirst` | tensorflow/c/c_api.cc:324-330 | no thread that waits for the graph lock holds a session lock |
| `GraphSession.SomeoneAdvances` | tensorflow/c/c_api.cc:250-376 | while some thread is inside a call, some thread can make its next step: no deadlock |
| `GraphSession.GraphHolderAdvances` | tensorflow/c/c_api.cc:250-265 | the holder of the graph lock, or the holder of the session lock it waits for, can go on |
| `GraphSession.SessionHolderAdvances` | tensorflow/c/c_api.cc:361-369 | a thread that holds only a session lock waits for no lock |
| `GraphSession.CallsReturn` | tensorflow/c/c_api.cc:324-376 | if no new calls come, only so many steps are left, and when none is possible all calls have returned |
| `GraphSession.AdvanceIsProgress` | tensorflow/c/c_api.cc:250-376 | every step inside a call brings that call nearer to its end and no other further from it |
| `GraphSession.StuckMeansReturned` | tensorflow/c/c_api.cc:324-376 | a state in which no thread can go on has no call under way |
| `GraphSession.RemovalHiddenExactlyWhen` | tensorflow/c/python_api.cc:63-73 | what RemoveAllControlInputs does not record goes unnoticed exactly if the node is an op with control inputs that some session has run, or is about to be extended by, with control inputs |
| `GraphSession.RemovalCanStayHidden` | tensorflow/c/python_api.cc:63-73 | a run from a new graph, with one op, one session and one extension, at whose end the change goes unnoticed |
| `GraphSession.RemovalHiddenByGuard` | tensorflow/c/python_api.cc:63-73 | before any mutation of the node was recorded, the guard of RecordMutation decides alone |
| `GraphSession.ReachedIsHidden` | tensorflow/c/c_api.cc:254-263 | a session that the node has reached misses the change unless it got the node without control inputs |
| `GraphSession.NotReachedIsNoticed` | tensorflow/c/c_api.cc:254-263 | if there is no such session nothing is missed |
| `GraphSession.SentCopyHidden` | tensorflow/c/c_api.cc:349-369 | a copy that is on its way during the change is out of date when it arrives |
| `GraphSession.DeliveredCopyHidden` | tensorflow/c/c_api.cc:254-263 | a delivered copy goes unnoticed unless it equals the changed node |
| `GraphSession.NothingAnnounced` | tensorflow/c/c_api.cc:250-265 | while nobody has the graph lock no mutation waits to be recorded |
| `GraphSession.ReachableIsGood` | tensorflow/c/c_api.cc:324-376 | the invariant of locks, names, deliveries and lifetime holds in every reachable state |
| `GraphSession.InvKept` | tensorflow/c/c_api.cc:250-376 | every step of every thread keeps the invariant |
| `GraphSession.InitialIsGood` | tensorflow/c/c_api.cc:1538-1548 | a new graph satisfies it |
| `GraphSession.FillGraphDef` | tensorflow/c/c_api.cc:349-360 | the loop collects the live ops with ids in the range, by id |
| `GraphSession.OpsInIsExact` | tensorflow/c/c_api.cc:349-360 | that batch holds each such op once, in id order |
| `GraphSession.OpsInAreUpToDate` | tensorflow/c/c_api.cc:349-360 | its copies equal the nodes |
| `GraphSession.ExactlyJoins` | tensorflow/c/c_api.cc:361-369 | appending the next batch keeps the delivery exact |
| `GraphSession.GraphLockKept` | tensorflow/c/c_api.cc:324-376 | the graph lock is held by the one thread whose step needs it |
| `GraphSession.SessionLocksKept` | tensorflow/c/c_api.cc:324-376 | a session lock is held exactly while its thread needs it |
| `GraphSession.UsesKept` | tensorflow/c/c_api.cc:2266-2279 | calls are only made on registered sessions |
| `GraphSession.LifeKept` | tensorflow/c/c_api.cc:1550-1557 | exactly one thread finds that it must free the graph, the last to leave after the request |
| `GraphSession.NamesKept` | tensorflow/c/c_api.cc:1044-1078 | the name map names exactly the live ops, rolled back additions leaving no trace but a used id |
| `GraphSession.NodesKept` | tensorflow/c/c_api.cc:1044-1078 | ids below the count keep their nodes up to definitions |
| `GraphSession.AnnouncedKept` | tensorflow/c/c_api.cc:250-265 | a mutation stays announced to a session until RecordMutation visits it |
| `GraphSession.CopyKept` | tensorflow/c/python_api.cc:23-56 | a copy that was up to date stays so or its change is announced |
| `GraphSession.ListKept` | tensorflow/c/c_api.cc:349-360 | no step makes a delivery inexact |
| `GraphSession.VisitedSessionOk` | tensorflow/c/c_api.cc:254-263 | the visit turns the announcement into a flag for the definition as it is, if the node was delivered |
| `GraphSession.ExtendedSessionOk` | tensorflow/c/c_api.cc:331-369 | logging, snapshot and the end of Extend keep deliveries exact and flags justified |
| `GraphSession.ExtendedCopiesOk` | tensorflow/c/c_api.cc:361-369 | every copy that arrives is up to date, flagged or announced |
| `GraphSession.ExtendedFlagsOk` | tensorflow/c/c_api.cc:331-337 | logging follows the last flag of every node, and no flag is lost |
| `GraphSession.AccountedKept` | tensorflow/c/c_api.cc:250-376 | no step of others leaves a stale copy unaccounted for |
| `GraphSession.UntouchedSessionKept` | tensorflow/c/c_api.cc:324-376 | steps on other sessions do not matter |
| `GraphSession.NewSessionOk` | tensorflow/c/c_api.cc:2181-2191 | a new or loaded session starts exact |
| `GraphSession.LoadIsExact` | tensorflow/c/c_api.cc:2212-2258 | a loaded session holds exactly the imported ops |
| `GraphSession.BatchKept` | tensorflow/c/c_api.cc:349-369 | a batch in flight stays exact, its stale copies announced, although the graph lock was dropped |
| `GraphSession.ExtendedIsUntouched` | tensorflow/c/c_api.cc:324-330 | while a thread extends a session nobody else changes its cursor or visits it |
| `GraphSession.DeliveryKept` | tensorflow/c/c_api.cc:250-376 | all sessions and batches stay as required |
| `GoTensor.RoundTrip` | tensorflow/go/tensor.go:278-353 | decoding the encoding of a rectangular value gives it back if and only if the shape has rank at most 1, starts with 0, or has no 0 before its last dimension |
| `GoTensor.EmptyMiddleIsLost` | tensorflow/go/tensor.go:316-347 | a slice of two empty slices of slices has shape [2,0,0] and decodes to an empty slice |
| `GoTensor.NewTensor` | tensorflow/go/tensor.go:79-134 | succeeds exactly on rectangular values, whose bytes it emits in row-major order, as many as elements times element size |
| `GoTensor.EncodedRowMajor` | tensorflow/go/tensor.go:492-531 | the element at a multi-dimensional index stands at its row-major position |
| `GoTensor.EncodeTensorWithSlices` | tensorflow/go/tensor.go:492-531 | appends all elements in order exactly if all slice lengths fit the shape and the type is supported; earlier bytes are untouched either way |
| `GoTensor.EncodeElements` | tensorflow/go/tensor.go:520-530 | the same for the elements of one dimension, stopping at the first failure |
| `GoTensor.FittingIsRectangular` | tensorflow/go/tensor.go:493-499 | the checks of slice lengths pass exactly on rectangular values |
| `GoTensor.ArraysFit` | tensorflow/go/tensor.go:139-151 | values made of arrays only always fit |
| `GoTensor.CellsOfRectangular` | tensorflow/go/tensor.go:79-134 | a rectangular value has as many elements as its shape says |
| `GoTensor.CellCountOf` | tensorflow/go/tensor.go:472-478 | the same, by the shape alone |
| `GoTensor.CellsInElement` | tensorflow/go/tensor.go:520-530 | each element of a dimension occupies its own consecutive run |
| `GoTensor.JoinedSize` | tensorflow/go/tensor.go:544-552 | the bytes are as many as elements times element size |
| `GoTensor.ShapeAndScalarOf` | tensorflow/go/tensor.go:433-452 | the walk along first elements finds the shape and the element type |
| `GoTensor.RestOfShapeStep` | tensorflow/go/tensor.go:433-452 | one step of that walk, also through empty slices |
| `GoTensor.WholeShape` | tensorflow/go/tensor.go:433-452 | the walk from the top yields the whole shape |
| `GoTensor.NumElements` | tensorflow/go/tensor.go:472-478 | the product of the dimensions |
| `GoTensor.Buffer.Write` | tensorflow/go/tensor.go:544-552 | appends |
| `GoTensor.DecodeTensor` | tensorflow/go/tensor.go:278-353 | computes the specified nesting of the raw elements on every shape |
| `GoTensor.GroupDimensions` | tensorflow/go/tensor.go:316-352 | the bottom-up loop builds the top-down nesting, or an empty list when an outer dimension is 0 |
| `GoTensor.Group` | tensorflow/go/tensor.go:341-348 | one dimension is cut into equal consecutive runs |
| `GoTensor.LevelStep` | tensorflow/go/tensor.go:326-351 | grouping the values of one depth gives those of the next one out |
| `GoTensor.LevelAtEnd` | tensorflow/go/tensor.go:294-315 | the innermost level is the elements |
| `GoTensor.OuterLevel` | tensorflow/go/tensor.go:350-352 | the outermost level is the value |
| `GoTensor.NextCount` | tensorflow/go/tensor.go:323-332 | dividing by the dimension gives the number of groups |
| `GoTensor.NestOfCells` | tensorflow/go/tensor.go:278-353 | nesting the elements of a rectangular value gives it back |
| `GoTensor.SplitOfJoin` | tensorflow/go/tensor.go:294-305 | cutting the bytes gives the elements back |
| `GoSession.DeletedOnceAndNeverInUse` | tensorflow/go/session.go:272-287 | the C session is deleted at most once, and never while an admitted call is under way |
| `GoSession.NothingAdmittedAfterDelete` | tensorflow/go/session.go:134-159 | no call is admitted once it is deleted |
| `GoSession.NoDeadlock` | tensorflow/go/session.go:272-287 | a Close that waits with the mutex held never keeps calls under way from finishing: some thread can always go on |
| `GoSession.CallsReturn` | tensorflow/go/session.go:134-287 | if no new calls come, only so many steps are left, and when none is possible all calls have returned |
| `GoSession.CallsAreCounted` | tensorflow/go/session.go:134-159 | the wait group counts every call under way, so Done never makes it negative |
| `GoSession.ReachableIsGood` | tensorflow/go/session.go:134-287 | the invariant of mutex and wait group holds in every reachable state |
| `GoSession.InvKept` | tensorflow/go/session.go:134-287 | every step keeps it |
| `GoSession.MutexKept` | tensorflow/go/session.go:134-287 | the mutex is held by the one thread that is between lock and unlock |
| `GoSession.GroupKept` | tensorflow/go/session.go:134-287 | the group counts exactly the admitted calls, none of them past the wait of a Close |
| `GoSession.MembersAfter` | tensorflow/go/session.go:183-207 | only admission and return change who is counted |
| `GoSession.SomeMember` | tensorflow/go/session.go:272-287 | while a Close waits, each counted call has left the mutex and can finish |
| `GoSession.AdvanceIsProgress` | tensorflow/go/session.go:134-287 | every step brings its call nearer to its end |
| `FeedSort.NewCRunArgs` | tensorflow/go/session.go:392-411 | the lists are sorted and pair every feed with its tensor |
| `FeedSort.IterationOrderDoesNotMatter` | tensorflow/go/session.go:399-411 | all map iteration orders give identical lists if no output is fed two tensors |
| `FeedSort.OrderSettledExactlyWhen` | tensorflow/go/session.go:363-386 | sorting settles the order if and only if that holds |
| `FeedSort.SortedIsUnique` | tensorflow/go/session.go:368-381 | two sorted lists of the same feeds are equal |
| `FeedSort.FirstAgrees` | tensorflow/go/session.go:368-381 | they start with the same feed |
| `FeedSort.AnotherOrder` | tensorflow/go/session.go:368-381 | otherwise there is a second sorted order |
| `FeedSort.SwappingEqualsKeepsSorted` | tensorflow/go/session.go:368-386 | the comparison cannot tell two feeds of one output apart |
| `FeedSort.FeedSorter.Swap` | tensorflow/go/session.go:383-386 | swaps a feed together with its tensor |
| `FeedSort.FeedSorter.Sort` | tensorflow/go/session.go:408-411 | sorted by the comparison and a permutation of the pairs |
| `FeedSort.FeedSorter.SiftDown` | tensorflow/go/session.go:408-411 | extends the sorted part by one pair |
| `FeedSort.SwapMovesDown` | tensorflow/go/session.go:383-386 | swapping an entry with a larger one below it leaves only that entry out of place |
| `FeedSort.InPlace` | tensorflow/go/session.go:368-381 | an entry that is not less than the one below it is in place |
| `ShapeList.SetAttr` | tensorflow/go/graph.go:474-492 | works exactly if every shape can be stored; what is stored is what partial shapes keep of the value, through flattening and pointer slicing |
| `ShapeList.ListAttribute` | tensorflow/go/attrs.go:152-177 | works exactly if every stored shape is valid, and then gives back what is stored, through storage of exactly the announced size |
| `ShapeList.SetAndList` | tensorflow/go/attrs.go:152-177 | setting works exactly if every shape can be stored, reading then exactly if no size below -1 came when its shape was out of line, and the list comes back as it was exactly if it has no size below -1 |
| `ShapeList.MakePartialShape` | tensorflow/c/c_api.cc:940-944 | a shape is kept or cannot be stored |
| `ShapeList.GetNodeAttr` | tensorflow/core/framework/node_def_util.cc:320-322 | fails exactly on a shape with more than 254 dimensions, a size below -1 or more than 2^63-1 elements; otherwise makes the shapes without loss |
| `ShapeList.ReadIsKept` | tensorflow/core/framework/node_def_util.cc:320-322 | a shape that reading accepts is made as it is |
| `ShapeList.KeptIsReadable` | tensorflow/core/framework/node_def_util.cc:320-322 | per shape: when what was stored can be read, and when it comes back as it was |
| `ShapeList.KeptIsExact` | tensorflow/core/framework/tensor_shape.cc:442-485 | a shape is kept as it is exactly if all its sizes are |
| `ShapeList.KeptTwice` | tensorflow/core/framework/tensor_shape.cc:140-157 | what was kept once is kept again |
| `ShapeList.KeptIsAsLong` | tensorflow/c/c_api.cc:1285-1290 | storing keeps the number of sizes, so the announced size is that of the list given |
| `PartialShape.KeptExactlyWhen` | tensorflow/core/framework/tensor_shape.cc:442-485 | a partial shape keeps its sizes exactly if each is at least -1 or comes when the shape is out of line |
| `PartialShape.BuiltIs` | tensorflow/core/framework/tensor_shape.cc:442-485 | form, sizes and number of elements of a shape in terms of the sizes given: out of line from the seventh dimension on, or with a size of 2^32-2, or with more than three dimensions and a size of 2^16-2 |
| `PartialShape.BuiltStep` | tensorflow/core/framework/tensor_shape.cc:442-485 | what one more size does |
| `PartialShape.BuiltTwice` | tensorflow/core/framework/tensor_shape.cc:140-157 | a shape made from the sizes of a shape has the same sizes and can be stored too |
| `PartialShape.IsValidShape` | tensorflow/core/framework/tensor_shape.cc:97-137 | the loop accepts exactly the shapes with at most 254 dimensions, no size below -1 and at no point more than 2^63-1 elements |
| `PartialShape.ValidIsStorable` | tensorflow/core/framework/tensor_shape.cc:97-137 | these are the shapes that can be stored and have no size below -1 |
| `PartialShape.StorableMeans` | tensorflow/core/framework/tensor_shape.cc:442-485 | a shape can be stored exactly if it has at most 254 dimensions and at no point more than 2^63-1 elements |
| `PartialShape.ReadableExactlyWhen` | tensorflow/core/framework/tensor_shape.cc:97-137 | what is stored is valid exactly if no size below -1 came when the shape was out of line |
| `PartialShape.ReadBackExactlyWhen` | tensorflow/core/framework/tensor_shape.cc:97-137 | it is valid and as it was exactly if it has no size below -1 |
| `PartialShape.StoredButUnreadable` | tensorflow/core/framework/tensor_shape.cc:113-119 | sizes 4294967294 and -7 are stored as they are and cannot be read |
| `PartialShape.ComesBackChanged` | tensorflow/core/framework/tensor_shape.cc:442-485 | size -7 is read back as -1 |
| `PartialShape.SmallIsBuilt` | tensorflow/core/framework/tensor_shape.cc:235-280 | the short cuts for up to four small sizes store what adding them one by one would store |
| `PartialShape.TensorShape.InitDims` | tensorflow/core/framework/tensor_shape.cc:212-294 | succeeds exactly if there are at most 254 dimensions and never more than 2^63-1 elements, and then holds the shape |
| `PartialShape.TensorShape.AddDimWithStatus` | tensorflow/core/framework/tensor_shape.cc:410-440 | one more dimension, or nothing if there are too many dimensions or elements |
| `PartialShape.TensorShape.UnsafeAddDim` | tensorflow/core/framework/tensor_shape.cc:442-485 | the form changes when a size does not fit it |
| `ShapeList.Flatten` | tensorflow/go/graph.go:474-492 | the dimensions one after the other, and the rank of each shape, -1 if unknown |
| `ShapeList.MakePointers` | tensorflow/go/graph.go:24-41 | each pointer is the sum of the ranks before it |
| `ShapeList.SetAttrShapeListHelper` | tensorflow/go/graph.go:24-41 | each stored shape is kept from the slice at its pointer, all within the flat list |
| `ShapeList.PointersFit` | tensorflow/go/graph.go:24-41 | no slice leaves the flat list |
| `ShapeList.OffsetsMatch` | tensorflow/go/graph.go:474-492 | the pointers are where flattening put the shapes |
| `ShapeList.FlatHolds` | tensorflow/go/graph.go:474-492 | each shape stands in the flat list at its own place |
| `ShapeList.SetAttrShapeList` | tensorflow/c/c_api.cc:931-947 | each shape is made from its pointer; fails exactly if one cannot be stored |
| `ShapeList.GetAttrMetadata` | tensorflow/c/c_api.cc:1285-1290 | list size and total size are those of the flat list |
| `ShapeList.GetAttrShapeList` | tensorflow/c/c_api.cc:1433-1462 | succeeds exactly if the storage suffices for the shapes asked for, then fills it exactly and describes each shape; never writes past the storage |
| `ShapeList.CopyDims` | tensorflow/c/c_api.cc:1458-1460 | the dimensions are appended at the cursor and nothing else changes |
| `ShapeList.MakeCShape` | tensorflow/go/attrs.go:28-34 | an element-wise copy |
| `ShapeList.ReadShapes` | tensorflow/go/attrs.go:164-177 | the list is rebuilt from pointers and ranks |
| `VariableCow.Runtime.AssignVariable` | tensorflow/c/kernels_experimental.cc:160-195 | the variable has the assigned contents, or keeps its own if allocation fails; no tensor handed out before changes |
| `VariableCow.Runtime.AssignUpdateVariable` | tensorflow/c/kernels_experimental.cc:197-232 | aborts without variable, fails on different shapes, otherwise the variable is updated as a plain value would be and every earlier tensor keeps its contents |
| `VariableCow.Runtime.PrepareToUpdateVariable` | tensorflow/c/kernels_experimental.cc:99-134 | afterwards no tensor shares the buffer; contents are unchanged |
| `VariableCow.Runtime.EnsureSparseVariableAccess` | tensorflow/c/kernels_experimental.cc:54-97 | succeeds exactly if copy-on-read mode is on afterwards, and then nothing shares the buffer |
| `VariableCow.Runtime.Read` | tensorflow/core/kernels/resource_variable_ops.cc:133-160 | the reader gets a tensor with the contents of the variable, which it keeps for ever |
| `VariableCow.Runtime.constructor` | tensorflow/c/kernels_experimental.cc:160-175 | no variable yet, nothing handed out |
| `VariableCow.Runtime.ReplaceBy` | tensorflow/c/kernels_experimental.cc:107-132 | the variable moves to a fresh copy that nobody shares |
| `VariableCow.Runtime.PointVariableAt` | tensorflow/c/kernels_experimental.cc:190-192 | the variable takes the buffer of the assigned tensor, the old one losing a reference |
| `VariableCow.Runtime.ShareVariable` | tensorflow/core/kernels/resource_variable_ops.cc:147-154 | a handed out tensor shares the buffer and is counted |
| `VariableCow.Runtime.NewTensor` | tensorflow/c/kernels_experimental.cc:177-189 | a new tensor has a buffer of its own |
| `VariableCow.Runtime.Release` | tensorflow/core/kernels/resource_variable_ops.cc:133-160 | giving up a tensor disturbs no other |
| `VariableCow.OneReferenceMeansUnshared` | tensorflow/c/kernels_experimental.cc:105 | a reference count of one means that no tensor shares the buffer, and conversely |
| `VariableCow.CountedNew` | tensorflow/c/kernels_experimental.cc:107-132 | a new tensor keeps the counts right |
| `VariableCow.CountedShared` | tensorflow/core/kernels/resource_variable_ops.cc:147-154 | sharing keeps the counts right |
| `VariableCow.CountedReleased` | tensorflow/c/kernels_experimental.cc:107-132 | releasing keeps the counts right |
| `VariableCow.CountedMoved` | tensorflow/c/kernels_experimental.cc:190-192 | moving the variable to another buffer keeps the counts right |
| `LockOrder.LocksAllExactlyWhen` | tensorflow/c/kernels_experimental.cc:234-292 | all requested mutexes are locked once in ascending order if and only if input number p has the p-th distinct requested mutex, for every such p; where an input without mutex is requested, if and only if the same holds but for the place of the null |
| `LockOrder.SkippedNullWasMoved` | tensorflow/c/kernels_experimental.cc:276-288 | if skipping null leaves the wanted mutexes in order, the null was found at one place and the rest in order |
| `LockOrder.MovedNullIsSkipped` | tensorflow/c/kernels_experimental.cc:276-288 | and conversely |
| `LockOrder.LocksAllMeansWanted` | tensorflow/c/kernels_experimental.cc:268-288 | the promise is kept exactly if what is locked is what is wanted, in order |
| `LockOrder.FindsWantedExactlyWhen` | tensorflow/c/kernels_experimental.cc:276-279 | the second pass, which takes positions for input numbers, finds the requested mutexes in order exactly in that case |
| `LockOrder.FirstInputsMatch` | tensorflow/c/kernels_experimental.cc:257-279 | asking for inputs 0..n-1 with pairwise distinct mutexes is such a case |
| `LockOrder.SharedMutexIsMisread` | tensorflow/c/kernels_experimental.cc:262-279 | asking for two inputs that share a mutex and a third one is not: one mutex is found twice, another not at all |
| `LockOrder.PositionsAreInputs` | tensorflow/c/kernels_experimental.cc:257-279 | there are never more positions than inputs |
| `LockOrder.Distinct` | tensorflow/c/kernels_experimental.cc:257-267 | the mutexes of the inputs, each once |
| `LockOrder.DistinctOfDistinct` | tensorflow/c/kernels_experimental.cc:257-267 | nothing is dropped where nothing repeats |
| `LockOrder.AcquireOrder` | tensorflow/c/kernels_experimental.cc:268-269 | all positions, by ascending address |
| `LockOrder.AscendingIsUnique` | tensorflow/c/kernels_experimental.cc:268-269 | there is only one ascending order of given mutexes |
| `LockOrder.Kernel.LockInputs` | tensorflow/c/kernels_experimental.cc:234-292 | returns no lock if nothing is a resource and no lock is asked for; otherwise the specified locks of the kind asked for, one reference per variable found, sparse variables in copy-on-read mode |
| `LockOrder.Kernel.CollectMutexes` | tensorflow/c/kernels_experimental.cc:254-267 | the first pass finds variables and distinct mutexes and adds the references |
| `LockOrder.Kernel.CollectMutex` | tensorflow/c/kernels_experimental.cc:258-266 | one round of it |
| `LockOrder.Kernel.LockPositions` | tensorflow/c/kernels_experimental.cc:276-288 | the second pass locks what it finds, skipping null, and keeps no reference |
| `LockOrder.Kernel.LookUpAgain` | tensorflow/c/kernels_experimental.cc:277-280 | the reference of a second lookup is given back |
| `LockOrder.Kernel.GetTrainingVariableMutex` | tensorflow/c/kernels_experimental.cc:136-158 | the mutex of a variable or reference, null for a dangling resource; the reference and mode of a variable change |
| `LockOrder.Kernel.Release` | tensorflow/c/kernels_experimental.cc:335-343 | gives back exactly the references that the holder carries |
| `LockProtocol.SomeoneAdvances` | tensorflow/c/kernels_experimental.cc:234-292 | among any concurrent calls whose second pass finds ascending mutexes, wherever it finds null, some thread wants a mutex that nobody has: no deadlock |
| `LockProtocol.CallsReturn` | tensorflow/c/kernels_experimental.cc:234-343 | if no new calls come, only so many steps are left, and when none is sure to be possible every holder is released |
| `LockProtocol.MatchIsOrderly` | tensorflow/c/kernels_experimental.cc:268-279 | calls whose numbers match find ascending mutexes |
| `LockProtocol.RightIsOrderly` | tensorflow/c/kernels_experimental.cc:268-288 | so do all calls that keep the promise, a null found late included |
| `LockProtocol.MatchIsRight` | tensorflow/c/kernels_experimental.cc:268-288 | calls whose numbers match keep the promise |
| `LockProtocol.FoundWasAsked` | tensorflow/c/kernels_experimental.cc:276-279 | a call that keeps the promise finds only mutexes that were asked for, and null only if it was |
| `LockOrder.NonNullInOrder` | tensorflow/c/kernels_experimental.cc:281-287 | whatever is locked later has a larger address |
| `LockProtocol.MutualExclusion` | tensorflow/c/kernels_experimental.cc:281-287 | in every run a mutex that one thread has exclusively no other thread holds |
| `LockProtocol.HeldMeansAll` | tensorflow/c/kernels_experimental.cc:281-292 | the holder of a call that keeps the promise has exactly the requested mutexes |
| `LockProtocol.NoInnerLockWhileHolding` | tensorflow/c/kernels_experimental.cc:54-70 | for such calls the second pass takes no inner sparse lock, in any run |
| `LockProtocol.SecondPassWasMet` | tensorflow/c/kernels_experimental.cc:257-279 | because whatever it looks up was met in the first pass |
| `LockProtocol.RepeatedMutexNeverReturns` | tensorflow/c/kernels_experimental.cc:276-287 | if the second pass finds a mutex twice, an exclusively locking call gets past the second time in no run |
| `LockProtocol.WantsItsOwn` | tensorflow/c/kernels_experimental.cc:281-287 | a thread that wants again what it has exclusively cannot go on |
| `LockProtocol.WantsLater` | tensorflow/c/kernels_experimental.cc:268-287 | a thread that holds a mutex wants only later ones |
| `LockProtocol.SomeoneIsFree` | tensorflow/c/kernels_experimental.cc:268-287 | following from a thread to the holder of what it wants ends at a thread that can go on |
| `LockProtocol.ReachableIsGood` | tensorflow/c/kernels_experimental.cc:234-343 | places, exclusion and prepared variables hold in every reachable state |
| `LockProtocol.InvKept` | tensorflow/c/kernels_experimental.cc:234-343 | every step keeps them |
| `LockProtocol.ExclusionKept` | tensorflow/c/kernels_experimental.cc:281-287 | every step keeps exclusive holders alone |
| `LockProtocol.PreparedKept` | tensorflow/c/kernels_experimental.cc:54-70 | in sparse mode the variables met in the first pass are in copy-on-read mode |
| `LockProtocol.MovedHolds` | tensorflow/c/kernels_experimental.cc:276-287 | a step adds at most the mutex that was wanted |
| `LockProtocol.AdvanceIsProgress` | tensorflow/c/kernels_experimental.cc:234-343 | every step brings its call nearer to its end |

## Left out

- FeedSort.FeedSorter.Sort: is an insertion sort, because the algorithm of Go's `sort.Sort` is not part of this model; only the order and the pairing matter for the results.
- ArenaPlanner.Planner.CreateTensorAllocationVector: sorts by insertion, because the algorithm of `std::sort` is not part of this model.
- GoTensor.EncodeTensorWithSlices: strings are opaque elements of one size, because TF_TString is not part of this model.
- Wrap-around of `size_t`, `int32` and `int64`: offsets, counts and ids are unbounded.
- `ReleaseNonPersistentMemory`, `AcquireNonPersistentMemory` and the getters of the planner: they only forward to the arena.
- Delegates, custom allocations, cancellation and reading back stale delegate data in `Subgraph::Invoke`, and the interpreter: they do not touch the planner's arenas.
- Encoding of shapes into attribute protos: an attribute holds the sizes and whether the rank is known.
- `TF_GetInputTensorFromVariable` and sparse updates in place: they hand out writable handles whose use is in plugin code.
- References that `TF_TensorFromTensor` keeps for handles that are never deleted: they could only cause more copies.
- Failure of `EnsureSparseVariableAccess` inside a lookup while locking: the process ends there.
- `Session.ListDevices`: takes no part in the protocol of mutex and wait group.
- While loops, gradients, imports with prefixes and control of devices in the C API: they forward to C++ builders.
- Byte order, unsafe slice headers and finalizers of the Go binding: buffers are sequences of bytes.
- Checkpoint readers, environment, logging, status and other wrappers of the C API, documentation and build scripts.
