# DAGuE: dataflow runtime, data placement and communication in Dafny

DAGuE runs a graph of tasks linked by data. A compiler turns parametrised task classes into C; the
runtime counts the dependencies of every task, keeps intermediate data in reference-counted hash
tables, queues ready tasks, and activates the ranks that need data; a matrix layer decides where tiles
live and generates random matrices in place. This project models these parts and proves what they
promise, for all inputs and all interleavings.

`dafny verify dfyconfig.toml` checks everything. The modules, bottom up:

- **Arithmetic of placement.** `IntegerArithmetic`, `CyclicIndex` (one dimension of a block-cyclic
  distribution), `BlockCyclic` (super-tiled two-dimensional distribution, its inverse and the streaming
  order), `SymBlockCyclic` (lower-triangular distribution).
- **Random matrices.** `Lcg` (affine maps modulo 2^64 and their jumps), `TileGenerator` (logarithmic
  jump-ahead, tiles), `HplWords` (64-bit arithmetic on pairs of 32-bit words), `Numroc` (the local
  count macro), `HplMatGen` (the benchmark generator on a process grid).
- **One node.** `ReleaseCell` (the dependency word of a task under concurrent releases), `DataRepo` (the
  hash table of intermediate data, as linked buckets), `RepoProtocol` (producers and consumers of one
  key), `Runtime` (workers, counter of tasks to do, releases, repository, closing barrier, as one step
  machine over an arbitrary finite acyclic graph), `Barrier`.
- **Queues and cache model.** `TaskRing`, `TaskQueues`, `ConcurrentBuffer` (pushes and pops of one buffer
  by several threads), `WorkerQueue`, `PriorityRing`, `LruStack`, `LruCache`.
- **Between ranks.** `RankBits`, `Broadcast` (the scan that activates ranks), `BroadcastTrees` (what all
  scans add up to), `Rendezvous` (activate, get, put), `Departure` (when the workers of a rank may leave).
- **Generated code.** `TaskSpace` (the key of a task), `DepTrie` (two-pass allocation of dependency
  arrays). Both take the definitions of a task class, not the text the compiler prints.

How the concurrent parts are modelled: a state, a predicate saying which step each participant can take
next, and a function giving the state after it; a run is any sequence of enabled steps. Atomic
compare-and-swap, increment, OR, and a repository operation under its bucket lock are one step each. A
release counts its use (`output_usage++`, private to the worker) in the same step as its first read of the
dependency word, and the releases of one task may overlap each other: both give more interleavings than
one thread that handles its successors in order.

Four properties hold only under a condition, which is stated and proved exactly, with an input that fails:

- `SymBlockCyclic.SlotIsBijection`: the slots of a rank of a symmetric distribution are a bijection onto its
  buffer exactly when the rank has no more rows above the diagonal of its last column than in the whole
  matrix; the number of tiles allocated is the number held under the same condition
  (`SymBlockCyclic.TotalIsExactIff`). At least as many tile rows as columns suffice (`TallIsCountable`); a
  matrix of one row and three columns fails (`WideMatrixUndercounts`).
- `ReleaseCell.MaskModeFindsReady`: the compiler numbers the bits of the goal mask among the flows that
  have inputs, the runtime sets bits by position among all flows. The releases of a task find it ready
  exactly when the flows with inputs come first; otherwise no run ever does (`WrittenFlowFirst`: a flow that is only
  written, before one that a task feeds). The build that counts has no such condition
  (`ReleaseCell.CounterModeFindsReady`).
- `DepTrie.ReachedIffAlone`: when the innermost definition is an expression, the `break` of the second pass
  leaves the loop of an outer definition, and tasks keep their dependency word exactly when no two of them
  share the values before the last range (`InnermostExpressionLosesTasks` is a class that loses one).
- `PriorityRing.SortedIff`: one insertion keeps the ready ring sorted except when the new priority ties
  with the head and the ring ends with a smaller one (`TieBreaksOrder`: a second 2 into 2, 1).

Where comments and code differ, the model follows the code: the usage limits of a repository entry come from
`data_repo_entry_addto_usage_limit`, not from the creating call as the comment at include/datarepo.h:170-177 has
it; the benchmark generator encodes numbers in two 32-bit words, not in 16 and 15 bits, and works from block
size 1 on.

## Model

| member | source | states |
|---|---|---|
| CyclicIndex.CountOwned | data_dist/matrix/two_dim_rectangle_cyclic/two_dim_rectangle_cyclic.c:170-196 | the counting loop of the constructor yields the number of indices a coordinate owns, counted one index at a time, with partial last blocks |
| CyclicIndex.DealtInTurn | data_dist/matrix/two_dim_rectangle_cyclic/two_dim_rectangle_cyclic.c:170-196 | blocks are dealt in turn: the first to coordinate 0, and one block further on is the next coordinate |
| CyclicIndex.LocalGlobalInverse | tests/pdmatgen.c:459-465 | local and global index are inverse bijections between the owned indices and the positions below their number |
| CyclicIndex.LocalIndexIsRank | data_dist/matrix/two_dim_rectangle_cyclic/two_dim_rectangle_cyclic.c:66-98 | the local position of an owned index is the number of owned indices before it |
| CyclicIndex.BlockExtent | data_dist/matrix/two_dim_rectangle_cyclic/two_dim_rectangle_cyclic.c:76-96 | what remains after k full local blocks, cut at one block, is the extent of the k-th block inside the matrix |
| BlockCyclic.Init | data_dist/matrix/two_dim_rectangle_cyclic/two_dim_rectangle_cyclic.c:104-206 | the constructor gives a valid descriptor, or refuses exactly when the grid is larger than the super-tile grid |
| BlockCyclic.RanksAgree | data_dist/matrix/two_dim_rectangle_cyclic/two_dim_rectangle_cyclic.c:22-46 | all ranks of a grid agree on the rank of a tile, and it is a rank of the grid |
| BlockCyclic.OneRankHolds | data_dist/matrix/two_dim_rectangle_cyclic/two_dim_rectangle_cyclic.c:22-46 | every tile of the matrix is held by exactly one rank of the grid |
| BlockCyclic.SlotThenTile | tests/LAQR/data_management.c:812-838 | every tile a rank holds has a slot inside its buffer, from which the inverse computation recovers the tile |
| BlockCyclic.TileThenSlot | tests/LAQR/data_management.c:812-838 | every slot of the buffer holds a tile of that rank, whose slot it is |
| BlockCyclic.SlotIsBijection | data_dist/matrix/two_dim_rectangle_cyclic/two_dim_rectangle_cyclic.c:35-100 | slot numbering is a bijection from a rank's tiles onto the buffer, for every size, super-tile shape and grid |
| BlockCyclic.SlotOrder | data_dist/matrix/two_dim_rectangle_cyclic/two_dim_rectangle_cyclic.c:66-98 | slots go through super-tile columns, super-tile rows, columns and rows, in this order: with the bijection this fixes every slot |
| BlockCyclic.StreamSlot | tests/LAQR/data_management.c:395-437 | in the streaming order every tile of a super-tile is at exactly its slot |
| BlockCyclic.DistributeData | tests/LAQR/data_management.c:395-437 | after the streaming copy every tile a rank holds sits in its slot |
| SymBlockCyclic.RowsBelowIsExpr | data_dist/matrix/sym_two_dim_rectangle_cyclic/sym_two_dim_rectangle_cyclic.c:66-83 | the loop's expression counts the rows of a grid row below a row |
| SymBlockCyclic.Slot | data_dist/matrix/sym_two_dim_rectangle_cyclic/sym_two_dim_rectangle_cyclic.c:47-85 | the slot loop yields the slot of the specification |
| SymBlockCyclic.OneRankHolds | data_dist/matrix/sym_two_dim_rectangle_cyclic/sym_two_dim_rectangle_cyclic.c:23-44 | every tile of the lower triangle is held by exactly one rank of the grid, and all ranks agree on it |
| SymBlockCyclic.SlotOrder | data_dist/matrix/sym_two_dim_rectangle_cyclic/sym_two_dim_rectangle_cyclic.c:47-85 | for any shape, slots follow the columns of the rank and each column from the diagonal down |
| SymBlockCyclic.Total | data_dist/matrix/sym_two_dim_rectangle_cyclic/sym_two_dim_rectangle_cyclic.c:132-146 | the allocation loop, with its unsigned 32-bit counter, yields where a column after the rank's last one would start, modulo 2^32 |
| SymBlockCyclic.SlotIsBijection | data_dist/matrix/sym_two_dim_rectangle_cyclic/sym_two_dim_rectangle_cyclic.c:66-83 | for any shape, slots are a bijection from a rank's lower-triangular tiles onto the allocation if and only if the rank has no more rows above the diagonal of its last column than in the whole matrix |
| SymBlockCyclic.TallIsCountable | data_dist/matrix/sym_two_dim_rectangle_cyclic/sym_two_dim_rectangle_cyclic.c:132-146 | that holds whenever there are at least as many tile rows as columns |
| SymBlockCyclic.TileOutside | data_dist/matrix/sym_two_dim_rectangle_cyclic/sym_two_dim_rectangle_cyclic.c:66-83 | when it does not, some tile the rank holds has a slot past the end of the allocation |
| SymBlockCyclic.TotalIsExactIff | data_dist/matrix/sym_two_dim_rectangle_cyclic/sym_two_dim_rectangle_cyclic.c:132-146 | for any shape, the allocation equals the number of tiles held, counted one by one, under the same condition and no other |
| SymBlockCyclic.WideMatrixUndercounts | data_dist/matrix/sym_two_dim_rectangle_cyclic/sym_two_dim_rectangle_cyclic.c:132-146 | a 1 by 3 tile matrix on one rank: one tile to hold, none allocated |
| Lcg.ComposeJumps | tests/pdmatgen.c:279-291 | composing a jump of m steps with a jump of n gives a jump of m + n, with constants reduced modulo 2^64 |
| Lcg.JumpTerm | tests/pdmatgen.c:656-668 | n jumps of k steps reach the term n * k steps ahead |
| TileGenerator.Rnd64Jump | data_dist/matrix/matrix.c:40-57 | reaches the n-th term of the sequence in as many rounds as n has bits |
| TileGenerator.CreateTile | data_dist/matrix/matrix.c:88-108 | every entry of a tile buffer is drawn from the term its place names |
| TileGenerator.EntryByGlobalPosition | data_dist/matrix/matrix.c:96-107 | that term is row + column * m of the global position when no 32-bit offset wraps |
| TileGenerator.TilingIndependent | data_dist/matrix/matrix.c:99-107 | the integer under a global entry does not depend on how the matrix is cut into tiles |
| HplWords.AddWord | tests/pdmatgen.c:99-124 | two 16-bit additions and the carry give the 32-bit word sum exactly |
| HplWords.Ladd | tests/pdmatgen.c:62-128 | sum of two encoded numbers modulo 2^64 |
| HplWords.MulColumn | tests/pdmatgen.c:186-194 | one column of the limb product, exact, with no value leaving 32 bits |
| HplWords.Lmul | tests/pdmatgen.c:132-203 | product of two encoded numbers modulo 2^64 |
| Numroc.Mnumroc | tests/pdmatgen.c:466-548 | counts exactly the indices of an interval that a process holds, for any first block, source and offset |
| HplMatGen.Xjumpm | tests/pdmatgen.c:206-300 | constants that jump any positive number of steps, and the value reached |
| HplMatGen.Advance | tests/pdmatgen.c:292-293 | multiply and add on words is one application of the affine map |
| HplMatGen.HplGenerator.SetRan | tests/pdmatgen.c:310-360 | which static field each option reads or writes, and the step of option 3 |
| HplMatGen.HplGenerator.JumpIt | tests/pdmatgen.c:363-416 | jumps and makes the result the current value |
| HplMatGen.HplGenerator.Rand | tests/pdmatgen.c:419-457 | returns the current value and advances the sequence by one |
| HplMatGen.JumpConstants | tests/pdmatgen.c:656-666 | the constants for rows of other processes, for the next column and for the next column block jump as far as they must |
| HplMatGen.FillColumn | tests/pdmatgen.c:682-689 | one local column is drawn from its global terms, padding untouched |
| HplMatGen.Pdmatgen | tests/pdmatgen.c:554-702 | on any process grid every local entry is drawn from the term of its global position, and nothing else is written |
| HplMatGen.GridIndependent | tests/pdmatgen.c:641-698 | two processes of two grids that hold the same global entry store the same value, term 1 + gi + gj * M |
| HplMatGen.SerialOrder | tests/pdmatgen.c:554-702 | on one process, without padding, position p holds term p + 1 of the sequence |
| HplMatGen.SameSequence | tests/pdmatgen.c:53-56 | the benchmark and the tile generator use one and the same sequence |
| ReleaseCell.StepKeepsCell | src/dague.c:729-777 | every atomic step of a release keeps the word equal to what the landed releases made it; exactly the completing one fires |
| ReleaseCell.FiresExactlyOnce | src/dague.c:729-834 | in every interleaving, in counter and in mask mode, one release finds the task ready, as soon as and not before all are through |
| ReleaseCell.CheckInDependencies | src/dague.c:644-678 | the count is the number of dependencies that are active and read from memory, the mask the set of flows that have one |
| ReleaseCell.TotalsAreInputs | src/dague.c:644-678 | memory and task inputs are counted once for each dependency of a flow whose guard holds |
| ReleaseCell.MemoryBitsAre | src/dague.c:644-678 | a flow has its bit if and only if an active dependency of it reads from memory |
| ReleaseCell.CounterGoal | tools/dague-compiler/jdf2c.c:1611-1640 | the compiler's counter goal is memory inputs plus releases when every input flow has one active dependency |
| ReleaseCell.MaskGoal | tools/dague-compiler/jdf2c.c:1611-1640 | the compiler's mask goal has one low bit per flow with inputs |
| ReleaseCell.MaskGoalIffInputsFirst | tools/dague-compiler/jdf2c.c:1696-1698 | that mask is the union of the flow bits if and only if the flows with inputs come first |
| ReleaseCell.CounterCellMatches | tools/dague-compiler/jdf2c.c:1611-1640 | in the counting build the compiler's goal is what the memory inputs and releases of a task add up to |
| ReleaseCell.CounterModeFindsReady | src/dague.c:729-749 | in the counting build a run of releases has found the task ready exactly when all of them are through |
| ReleaseCell.MaskCellMatches | tools/dague-compiler/jdf2c.c:1696-1698 | in the mask build the compiler's goal is what memory inputs and releases set if and only if the flows with inputs come first |
| ReleaseCell.MaskModeFindsReady | src/dague.c:764-777 | in the mask build a run of releases has found the task ready if and only if all are through and the flows with inputs come first |
| ReleaseCell.WrittenFlowFirst | tools/dague-compiler/jdf2c.c:1696-1698 | a task with a written flow before a fed one: its only release lands, and no run finds the task ready |
| DataRepo.Bucket.Find | include/datarepo.h:268-276 | the search loop finds the entry of a key and its predecessor, or shows that there is none |
| DataRepo.Bucket.LookupEntryAndCreate | include/datarepo.h:229-258 | retains the entry of the key, or chains a new one in front; the other keys are untouched |
| DataRepo.Bucket.Unlink | include/datarepo.h:288-294 | takes one entry out of the chain, at its head or not |
| DataRepo.Bucket.UsedOnce | include/datarepo.h:263-303 | counts a use and frees the entry exactly when uses reach the limit and nobody retains it |
| DataRepo.Bucket.AddToUsageLimit | include/datarepo.h:311-352 | raises the limit, drops one retain, frees the entry exactly when it is used up and free |
| DataRepo.SlotUpdated | include/datarepo.h:272-276 | changing the counters of one chained entry changes that key of the table and nothing else |
| DataRepo.SlotRemoved | include/datarepo.h:288-294 | unchaining an entry removes that key and nothing else |
| DataRepo.Repo.LookupEntry | include/datarepo.h:210-223 | finds the entry of a key in its bucket |
| DataRepo.Repo.LookupEntryAndCreate | include/datarepo.h:229-258 | the table-wide effect, bucket by hash |
| DataRepo.Repo.UsedOnce | include/datarepo.h:263-303 | the table-wide effect: other keys, in this bucket or another, keep their counters |
| DataRepo.Repo.AddToUsageLimit | include/datarepo.h:311-352 | the table-wide effect |
| RepoProtocol.StepKeepsInv | include/datarepo.h:142-178 | uses plus outstanding consumers balance the limit plus unannounced uses after every operation of any producer or consumer |
| RepoProtocol.NoMissInAnyRun | include/datarepo.h:142-178 | in every run no operation misses its entry, and the entry exists exactly while retained or awaited |
| RepoProtocol.OperationsFindEntry | include/datarepo.h:142-178 | in every run whatever can happen next finds the entry, retained as often as producers are counting |
| Runtime.MoveKeepsInv | src/scheduling.c:276-305 | every step of every worker keeps hands, dependency words, stages, repository, counter and history consistent |
| Runtime.ExecutionIsSafe | src/scheduling.c:276-305 | the counter is the number of unstarted tasks; no task begins twice or before its predecessors completed; no repository operation misses |
| Runtime.InputsPresent | tools/dague-compiler/jdf2c.c:1990-2010 | when a task may begin, the entries of all its inputs are in the repository and their producers have completed |
| Runtime.OperationsFindEntries | tools/dague-compiler/jdf2c.c:2314-2440 | in every run whatever a worker can do next finds the repository entries it needs |
| Runtime.LifeOfATask | src/scheduling.c:276-305 | a task goes through its stages in order in the hands of one worker; its last release lists it, and it enters the queues with the whole list of that release |
| Runtime.ReleaseKeepsInv | src/dague.c:705-864 | one step of one release, whichever it is, keeps the invariant, listing the successor exactly when its word reaches the goal |
| Runtime.AddLimitKeepsInv | tools/dague-compiler/jdf2c.c:2420-2440 | announcing the counted uses leaves an entry that lives exactly until its last use |
| Runtime.UseInputKeepsInv | tools/dague-compiler/jdf2c.c:2314-2380 | giving an input back finds its entry and frees it at the last use |
| Runtime.ScheduleKeepsInv | src/scheduling.c:84-140 | the ready list of a task enters the queues as a whole |
| Runtime.WorkIsNeverLost | src/scheduling.c:276-305 | while tasks remain to do, one is queued or some worker is busy |
| Runtime.ClosingBarrier | src/scheduling.c:383-384 | when all workers have left their loop every task has run exactly once to its end and the repository is empty |
| Runtime.Progress | src/scheduling.c:276-305 | as long as some worker has not left, some worker can move |
| Runtime.RunsTerminate | src/scheduling.c:276-305 | no run exceeds a bound in tasks, edges and workers, and one that cannot continue has all workers at the closing barrier |
| Barrier.BarrierIsSafe | src/barrier.c:30-52 | nobody completes more waits than anybody entered, nobody is more than one generation behind, each round returns 1 once, despite spurious wake-ups |
| Barrier.Progress | src/barrier.c:30-52 | some thread can enter or will leave when it wakes |
| TaskRing.Detach | include/hbbuffer.h:74-85 | takes the first element out; both parts are rings |
| TaskRing.Rechain | include/hbbuffer.h:108-114 | puts an element back in front of a ring |
| TaskQueues.Dequeue.PopBack | include/dequeue.h:60-78 | takes the last element, or none from an empty queue or when the lock is taken; the rest stays a doubly linked cycle |
| TaskQueues.Dequeue.PopFront | include/dequeue.h:80-97 | takes the first element, or none from an empty queue or when the lock is taken |
| TaskQueues.Dequeue.PushBack | include/dequeue.h:99-112 | appends a whole ring in its order |
| TaskQueues.Dequeue.PushFront | include/dequeue.h:114-127 | puts a whole ring in front in its order |
| TaskQueues.Buffer.PushAll | include/hbbuffer.h:65-117 | fills empty slots in order and leaves the rest as a ring in its original order |
| TaskQueues.FillLeaves | include/hbbuffer.h:65-117 | what is left is the end of the ring, so the slots got a prefix |
| TaskQueues.FillSlots | include/hbbuffer.h:87-99 | taken slots keep their task, and nothing is left over unless all slots are full |
| TaskQueues.FillAt | include/hbbuffer.h:85-102 | the k-th empty slot gets the k-th element, all other slots keep what they hold |
| TaskQueues.FillKeepsAll | include/hbbuffer.h:65-117 | no task is lost or duplicated by a push |
| TaskQueues.Buffer.PopBest | include/hbbuffer.h:131-173 | takes the first element of maximal rank, or none from an empty buffer |
| ConcurrentBuffer.PushConserves | include/hbbuffer.h:65-117 | one step of a push, whose slot others may have taken or freed, keeps the number of copies of every task |
| ConcurrentBuffer.PopConserves | include/hbbuffer.h:131-173 | one step of a pop, whose claim may fail and start over, keeps the number of copies of every task |
| ConcurrentBuffer.NothingLostOrTwice | include/hbbuffer.h:65-173 | in every run of any pushers and poppers no task is lost, none is taken by two pops or both taken and still stored, and each push hands on an end of its ring in order |
| ConcurrentBuffer.ClaimTakesWhatIsThere | include/hbbuffer.h:164 | a claim takes the task that was seen and only that slot, or changes nothing because the slot no longer holds it |
| ConcurrentBuffer.ViewsAreTrue | include/hbbuffer.h:146-164 | the record of what a pop has seen holds the contents of each slot when it looked, since it last started over |
| ConcurrentBuffer.PopsAreBest | include/hbbuffer.h:65-173 | in every run a pop claims the first of the tasks of highest rank it has seen, after looking at every slot or at a task of the best rank; it gives up only after seeing every slot empty; a push hands on something only after reaching every slot, having filled each it found empty |
| ConcurrentBuffer.PushTakesEmptySlot | include/hbbuffer.h:85-102 | one step of a push puts the next task into the slot it has reached if that is empty, and changes no other slot |
| ConcurrentBuffer.LonePopTakesBest | include/hbbuffer.h:131-173 | without interference a pop ends within two steps more than there are slots with the best task of the buffer |
| ConcurrentBuffer.BestSlotIsBest | include/hbbuffer.h:150-158 | that is the slot the sequential pop takes |
| ConcurrentBuffer.LonePushFills | include/hbbuffer.h:65-117 | without interference the empty slots get the ring in its order |
| TaskQueues.PushHierarchy | src/dague.c:86-105 | through a chain of buffers, what does not fit reaches the queue at its end in order |
| TaskQueues.ChainKeepsAll | src/dague.c:86-105 | a push through the whole chain loses and duplicates nothing |
| TaskQueues.ChainIsOneBuffer | src/dague.c:86-105 | a push through the chain is a push into one buffer of all its slots: a buffer hands on only what does not fit |
| WorkerQueue.Worker.Schedule | src/scheduling.c:84-140 | the placeholder takes the first task if it is free; the rest goes to the back, or to the front when urgent |
| WorkerQueue.Worker.ChooseLocalJob | src/scheduling.c:224-237 | tasks leave in the order placeholder, then queue; a queue that is locked yields none and keeps its tasks |
| PriorityRing.AddByPriority | include/dague.h:211-233 | the walk inserts at the place of the specification and returns the right head |
| PriorityRing.InsertedKeeps | include/dague.h:211-233 | an insertion loses nothing and leaves a task of maximal priority at the head |
| PriorityRing.InsertedBeforeEquals | include/dague.h:211-233 | a task goes directly in front of the first that is not more urgent, or to the end if it ties with the head |
| PriorityRing.SortedIff | include/dague.h:211-233 | an insertion keeps the order if and only if it does not tie with the head in front of a smaller tail |
| PriorityRing.TieBreaksOrder | include/dague.h:211-233 | a sorted ring of priorities 2, 1 and a new 2 that goes to its end |
| PriorityRing.DistinctPrioritiesSorted | include/dague.h:211-233 | distinct priorities end up fully sorted, in whatever order they came |
| LruStack.LevelsAre | Buf2Cache/buf2cache.c:37-52 | on any history every level holds the most recent tiles, as many as fit |
| LruStack.EvictedIsMissing | Buf2Cache/buf2cache.c:160-186 | a tile is reported as evicted exactly when a full cache lacks the new one, and it is the one tile that disappears |
| LruStack.ChildInsideParent | Buf2Cache/buf2cache.c:37-52 | every child's contents are the beginning of its parent's |
| LruStack.StackDistance | Buf2Cache/buf2cache.c:222-264 | the list position of a tile is the number of distinct tiles since its last use |
| LruStack.DistanceMonotone | Buf2Cache/buf2cache.c:211-220 | a tile used more recently is never further away |
| LruStack.DistanceIsFirst | Buf2Cache/buf2cache.c:211-220 | the distance is the number of levels below the first that holds the tile |
| LruCache.Cache.DoReferenced | Buf2Cache/buf2cache.c:65-186 | the age-stamped array does what the list does, evicting the least recent tile |
| LruCache.Cache.IsLocal | Buf2Cache/buf2cache.c:190-207 | whether a cache holds a tile |
| LruCache.Cache.Age | Buf2Cache/buf2cache.c:228-264 | the number of younger tiles, which is the list position; -1 for an absent tile |
| LruCache.BufReferenced | Buf2Cache/buf2cache.c:37-52 | a reference updates every level of the chain |
| LruCache.BufDistance | Buf2Cache/buf2cache.c:211-220 | number of levels before the first that holds the tile |
| LruCache.ChainShowsHistory | Buf2Cache/buf2cache.c:37-52 | after one more reference every level of a chain still holds the most recent tiles of the history |
| LruCache.CacheCreate | Buf2Cache/buf2cache.c:13-32 | a level of at most one tile is replaced by its parent |
| RankBits.RanksAre | src/remote_dep.c:204-211 | the scan order lists exactly the ranks whose bit is set |
| RankBits.SetBitCount | src/dague.c:905-910 | setting a new bit adds one rank |
| Broadcast.RemoteDeps.Mark | src/dague.c:898-911 | every count stays the number of bits and their sum the total, whatever is marked how often |
| Broadcast.BinomialChild | src/remote_dep.c:135-155 | the loop that drops the leftmost bit decides parenthood in the binomial tree |
| Broadcast.ScanOutput | src/remote_dep.c:204-246 | the nested loops visit the ranks of one output in order and stop after count of them |
| Broadcast.VisitRank | src/remote_dep.c:215-246 | one rank of the scan: numbering, the choice to send, and a counter that goes up with each send and only then |
| Broadcast.Activate | src/remote_dep.c:199-253 | the whole scan yields the sends of the specification and ends when the counts are used up; the counter, raised before each send, ends higher by their number |
| BroadcastTrees.ScanKnows | src/remote_dep.c:220-232 | at every rank the scan numbers participants as everywhere else, and a rank knows its number before it meets a child |
| BroadcastTrees.SendsAreChildren | src/remote_dep.c:220-246 | each rank sends exactly to its children in the common numbering |
| BroadcastTrees.ChildOfParent | src/remote_dep.c:125-169 | every participant other than the root has exactly one parent |
| BroadcastTrees.MemberSends | src/remote_dep.c:199-253 | what the scan of one output sends at a rank is its share of the tree over the ranks whose bits are set |
| BroadcastTrees.ChainSendsNext | src/remote_dep.c:125-131 | chain: each participant sends to the next in ascending order, the last to none |
| BroadcastTrees.BinomialSendsOneBitLeft | src/remote_dep.c:135-155 | binomial: a participant sends, in ascending order, to those whose number is its own with one more bit to the left of all its bits |
| BroadcastTrees.StarSendsAll | src/remote_dep.c:157-169 | star: the root sends to all others, nobody else sends |
| BroadcastTrees.SeveralOutputs | src/remote_dep.c:199-253 | with several outputs, the root and the members of the first one send once to each child of their number in some output |
| BroadcastTrees.ExactlyOneMessage | src/remote_dep.c:125-246 | for one output, given by its bit words, and for chain, binomial and star, in every order of forwarding, each rank whose bit is set, but the root, is activated at most once, and exactly once when nobody is left to forward |
| BroadcastTrees.WhichMask | src/remote_dep_mpi.c:343-362 | the mask of a message is exactly the outputs the rank needs; the loop ends when the counts are used up |
| BroadcastTrees.StarPartition | src/remote_dep.c:199-253 | with several outputs in star mode, messages partition the pairs of an output and a rank other than the root |
| Rendezvous.TakeActivateKeepsInv | src/remote_dep_mpi.c:841-953 | taking an activation into a listening slot keeps the invariant: fresh tags match nothing in the network |
| Rendezvous.TakeGetKeepsInv | src/remote_dep_mpi.c:763-805 | serving a get keeps the invariant: one put per asked output, each with its own tag |
| Rendezvous.PutEndKeepsInv | src/remote_dep_mpi.c:689-707 | a finished put frees the get slot and the flying message exactly at the last output |
| Rendezvous.PutsEndOnce | src/remote_dep_mpi.c:689-707 | a put ends once, by its own completion |
| Rendezvous.ServedWhenPutsEnded | src/remote_dep_mpi.c:689-707 | an activation is served, and its flying message gone, exactly when all its puts have ended |
| Rendezvous.GetEndKeepsInv | src/remote_dep_mpi.c:735-757 | an arrived output is released once, and the slot listens again exactly when nothing is missing |
| Rendezvous.RightData | src/remote_dep_mpi.c:735-757 | a receive that completes got the data put for its own activation and output |
| Rendezvous.RendezvousIsSafe | src/remote_dep_mpi.c:661-761 | in every run outputs are released at most once and only if asked for; an activation that was taken holds exactly one slot while an output is missing and none afterwards; counters equal unstarted tasks plus unserved activations |
| Rendezvous.InvCovers | src/remote_dep_mpi.c:735-757 | no slot listens again too early or too late: a slot receives an activation if and only if one of its outputs is missing |
| Rendezvous.Progress | src/remote_dep_mpi.c:661-761 | with any number of slots, something can move until everything is served |
| Rendezvous.Moves | src/remote_dep_mpi.c:661-761 | an announced activation that is not served and received never waits for another announcement |
| Rendezvous.EndOfRun | src/remote_dep.c:50-59 | once all is served each asked output was released exactly once, all slots listen, counters are the unstarted tasks |
| Rendezvous.RendezvousCompletes | src/remote_dep_mpi.c:661-761 | runs are bounded, and one that cannot continue has released every asked output exactly once |
| Departure.NextKeepsInv | src/scheduling.c:276-305 | every step of a worker or of the communication of any rank keeps counters, hands and unannounced activations consistent |
| Departure.NobodyLeavesTooEarly | src/remote_dep.c:50-59 | in every run over several ranks, once all workers of a rank have left, all its jobs have begun, none is running, and all its activations are served |
| Departure.OneMayLeaveBefore | src/scheduling.c:276-294 | a single worker can leave at counter 0 while another one still announces |
| Departure.SomeoneMoves | src/scheduling.c:276-305 | while some worker has not left, a worker or the communication of some rank can move, without beginning a job that is not ready |
| Departure.EverybodyLeaves | src/scheduling.c:276-305 | runs are bounded, and one that cannot continue, with jobs that wait for their data and their local predecessors, has all workers of all ranks gone and every asked output released exactly once |
| Rendezvous.PostAll | src/remote_dep_mpi.c:876-930 | the mask loop posts one request per output of the mask, each with its tag |
| TaskSpace.Hash | tools/dague-compiler/jdf2c.c:1926-1948 | the generated sum of products is the mixed-radix key, first definition least significant |
| TaskSpace.DecodeKey | tools/dague-compiler/jdf2c.c:1926-1948 | decoding a key gives the values back even when bounds depend on earlier values |
| TaskSpace.KeyBelowVolume | tools/dague-compiler/jdf2c.c:1926-1948 | keys are below the product of the ranges |
| TaskSpace.HashInjective | tools/dague-compiler/jdf2c.c:1926-1948 | two tasks of a class never share a key, and keys are not negative |
| DepTrie.CountTasks | tools/dague-compiler/jdf2c.c:1477-1513 | the first pass counts exactly the points that satisfy the predicate and bounds them, by values that occur or by the initial ones |
| DepTrie.InsertWalk | tools/dague-compiler/jdf2c.c:1547-1563 | allocating the missing arrays on the way to a task opens exactly one more path |
| DepTrie.SecondPass | tools/dague-compiler/jdf2c.c:1526-1572 | the second pass opens exactly the paths of the tasks met before each `break` |
| DepTrie.Initialise | tools/dague-compiler/jdf2c.c:1422-1592 | the whole initialisation: number of tasks, arrays, and every dependency word 0 |
| DepTrie.FoundWordIsZero | tools/dague-compiler/jdf2c.c:879-890 | the word found for a task before its first release is the one from which its releases start |
| DepTrie.EveryTaskReached | src/dague.c:682-698 | when the innermost definition is a range every task finds an allocated innermost array and an index within it |
| DepTrie.ReachedIffAlone | tools/dague-compiler/jdf2c.c:1565-1567 | otherwise every task is reached if and only if no two share the values before the last range |
| DepTrie.InnermostExpressionLosesTasks | tools/dague-compiler/jdf2c.c:1565-1567 | a class of two tasks one of which has no array |
| DepTrie.FindDeps | src/dague.c:682-698 | the walk reaches that array and index |

## Left out

- Integer widths of placement: slots, ranks and counts are unbounded, except the counter of `SymBlockCyclic.Total`; the source uses 32-bit integers. The generators' 64-bit and 32-bit arithmetic is modelled exactly.
- TaskSpace.Hash: does not model the 32-bit overflow of the generated `int` key, because injectivity is a property of unbounded integers only.
- SymBlockCyclic.SlotIsBijection: is about exact slot positions and sizes; `SymBlockCyclic.Total` ties the size to the 32-bit counter.
- TileGenerator.CreateTile: stores the integer drawn for an entry; its conversion to a floating-point value and the larger diagonal of the Cholesky variant are left out.
- HplMatGen.HplGenerator.Rand: returns the two words; their conversion to a double is left out.
- HplWords.Ladd: returns its result, so a call whose result array is also an operand is not modelled; the callers of the source pass distinct arrays.
- HplMatGen.Pdmatgen: stores the two words a random number is made of; their conversion to a floating-point value is left out.
- The period of the generators and the quality of their numbers.
- Reference counts of data chunks, arenas, and the recycling of communication records.
- Waiting for a lock: every operation under a lock is one step. Whether a try to lock fails is an input.
- TaskQueues.Buffer.PushAll: one thread, on the linked ring; other threads are in `ConcurrentBuffer`, where a ring is a sequence.
- TaskQueues.Buffer.PopBest: one thread, whose claim succeeds; the retry after a lost compare-and-swap is in `ConcurrentBuffer`.
- ConcurrentBuffer.NothingLostOrTwice: a freed element that comes back at the same address while a pop still looks is the same task to the model, as it is to the compare-and-swap.
- Runtime.MoveKeepsInv: the queues are one set from which any idle worker may pop; their order, the placeholder and stealing are in the queue modules.
- Runtime.ExecutionIsSafe: takes one node; remote releases enter as in `Rendezvous`.
- Runtime.ClosingBarrier: one node; the counter with flying messages of several ranks is in `Departure`, and the barrier itself in `Barrier`.
- Departure.NobodyLeavesTooEarly: a job may begin in any order, so its runs include all those the dependencies allow; receivers do not forward (star mode), and communication is served whether or not a worker is there to poll it.
- Rendezvous.RendezvousIsSafe: tags grow without bound; reusing them after the largest tag is left out, as is deferring a get under flow control.
- BroadcastTrees.ExactlyOneMessage: covers one output; with several outputs a chain or a binomial tree keeps its own number from one output to the next: `SeveralOutputs` says what is sent then, and only for the star that it partitions.
- DepTrie.Initialise: the arrays are a value, not linked records, and a class of one definition without tasks gets no array where the source leaves a pointer unset; parameters and definitions coincide.
- LruCache.Cache.DoReferenced: one client; callers ignore the evicted tile; the per-entry locks and the approximate policy under concurrency are left out, and ages have no lower bound.
- MPI, threads, binding to cores, profiling, statistics and error exits: foreign calls. Messages are reliable.
- The parser of task descriptions, expression evaluation, sanity checks and the text the compiler prints.
- Numerical kernels.
