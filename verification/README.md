# Models of the course-project C programs

A Dafny model of seven C programs of the repository and proofs of what they promise. File names
and lines below refer to the C sources.

* **The database** (`database/db.c`): a binary search tree with one reader/writer lock per node.
  `LockCoupling` models any number of threads running `db_query`, `db_add` and `db_remove` as step
  machines over shared cells and locks: one step takes a lock, gives one back, or makes the writes
  between two lock operations. `CouplingInvariant`, `CouplingSteps` and `CouplingWrites` hold the
  inductive invariant; its heart is that a searching thread's key belongs below the node it holds,
  even while another thread moves a successor's name up into `dnode`, and that the successor chain
  walked with released locks stays private to the walker. `CouplingSafety` draws memory safety,
  race freedom, deadlock freedom and clean termination from it, `Linearizability` a serial order
  that explains every run, and `CouplingProgress` a bound on the length of every run, so that all
  calls are answered under any scheduler. `Database` is the same tree used by one thread, with node
  objects rewritten in place. Both rest on one theory of trees (`SearchTree`, `TreeEdits`, `TreeSizes`, with
  `Bindings`) and of their representation in cells (`NodeHeap`, `HeapEdits`). `Names` justifies integer names.
* **The allocator** (`malloc/mm.c`, `mminline.h`, `memlib.c`) on an array of words: boundary tags,
  the circular free list inside free payloads, splitting, coalescing and heap extension. `Allocator`
  is the class; `HeapLayout`, `LayoutEdits`, `FreeList` and `BlockOps` are the theory of tilings and
  lists that its methods are proved against, and `HeapModel` is the allocator without its memory,
  which the class follows step by step. `Traces` says what a trace of requests asks for and what the
  model makes of it; `Driver` is the trace checker of `mdriver.c`, which states the allocator's
  contract from outside.
* **The maze** (`maze/`): the random walk that generates a perfect maze (`Generator`,
  `SpanningTree`), the depth-first solver in both builds (`Solver`), and the file between them
  (`MazeFile`), over the grid of `Maze`.
* **strtok** (`Tokenizer`), **the generation barrier** (`Barrier`), **the shell's job list and its
  reaping** (`Jobs`, `Reap`) and **the five-lane polynomial** (`Polynomial`).

Decisions that a reader should know:

* Database names are integers in `strcmp` order, with 0 for the empty name of the sentinel;
  `Names.RanksAreFaithful` shows that the names of any run can be numbered so. Operations take
  non-empty names because `%255s` delivers no others. Each locking call is an abstract
  reader/writer lock.
* The writes of the splice (`db.c:169-171`) are one step of the model. `CouplingSafety.RunsAreSafe`
  shows that no other thread's next step reads or writes any of the cells involved, which is what
  makes the grouping harmless.
* Heap addresses are word indices and `NULL` is -1; the bytes of a word are numbered from the lowest.
  Request sizes are such that `align(size) + TAGS_SIZE` fits an `int`, as `mem_sbrk` and line 249 of
  `mm.c` need.
* `rand()` is any stream of numbers, from which the generated maze is computed. `waitpid`, the value
  left in `hex` by a failed `fscanf` and spurious wake-ups are arbitrary. Files and terminals are
  strings and sequences.
* `poly` is not the polynomial for degrees congruent to 3 or 4 modulo 5: lines 98-99 give two lanes
  each other's power and line 111 multiplies a lane into itself. Degree 4 falls into the branch
  marked as never occurring. `Polynomial.Agrees` is the exact condition for a right answer, and
  `Polynomial.EveryBadDegreeFails` has a wrong one for every such degree. The comments beside the
  cases name the residues the other way round; the model follows the code.
* `extend_heap` calls `split` on a block of exactly the size asked for, so that call never splits.
  The comment on `split` says "two times greater"; the code splits from three times the size on.

## Model

| member | source | states |
|---|---|---|
| `Names.Total` | database/db.c:194-205 | `strcmp` is antisymmetric and 0 exactly on equal names |
| `Names.Transitive` | database/db.c:194-205 | the order of names is transitive |
| `Names.FirstDifference` | database/db.c:194-205 | where two names first differ, the one that ends there or has the smaller character comes first |
| `Names.RanksAreFaithful` | database/db.c:97-205 | numbering the names of a run by how many come before keeps the order both ways, tells names apart and gives 0 to the empty name alone |
| `TreeEdits.MissMeansAbsent` | database/db.c:200-201 | a null link where the key leads means the key is nowhere in the tree |
| `TreeEdits.HitMeansPresent` | database/db.c:205-206 | a node with the key's name holds the key's value in the map of the whole tree |
| `TreeEdits.GraftInserts` | database/db.c:93-100 | hanging a new node below the parent where the search ended keeps the tree sorted and adds exactly one binding |
| `TreeEdits.GraftKeepsRoutes` | database/db.c:93-100 | every key's search path through an old node stays a search path |
| `TreeEdits.UnlinkRemoves` | database/db.c:122-142 | bypassing a node with a null child keeps the tree sorted and removes exactly its binding |
| `TreeEdits.UnlinkKeepsRoutes` | database/db.c:122-142 | other threads' search paths survive the bypass |
| `TreeEdits.SpliceRemoves` | database/db.c:143-175 | moving the successor's name and value up and cutting the successor out removes exactly the deleted key, keeps order and drops one node |
| `TreeEdits.SpliceKeepsRoutes` | database/db.c:143-175 | a key's route to any surviving node is still a route after the successor has moved up, unless the node is on the walked chain and the key does not lie beyond the successor's name |
| `TreeSizes.GraftGrows` | database/db.c:93-100 | a new leaf adds at most one node below any other |
| `TreeSizes.UnlinkShrinks` | database/db.c:122-142 | bypassing a node adds no node below any other |
| `TreeSizes.SpliceShrinks` | database/db.c:143-175 | neither does moving the successor up |
| `HeapEdits.AddTree` | database/db.c:93-100 | the link written by `strcmp(name, parent->name)` yields the grafted tree in memory |
| `HeapEdits.UnlinkTree` | database/db.c:122-142 | the link chosen by `strcmp(dnode->name, parent->name)` yields the bypassed tree in memory |
| `HeapEdits.SpliceTree` | database/db.c:168-175 | the three writes through `dnode` and `pnext` yield the spliced tree in memory |
| `HeapEdits.WalkExtends` | database/db.c:154-166 | one more step down the left chain keeps it a chain of distinct nodes below `dnode` |
| `Database.DbNode.constructor` | database/db.c:19-53 | a node with the given fields |
| `Database.DbNode.SetChild` | database/db.c:97-100 | only the link on the side of the key changes |
| `Database.Db.constructor` | database/db.c:17-17 | the sentinel alone is the empty map |
| `Database.Db.Search` | database/db.c:184-220 | the target is the key's node and null exactly when the key is absent; the parent is where it hangs or would hang |
| `Database.Db.Query` | database/db.c:67-80 | lookup in the map |
| `Database.Db.Add` | database/db.c:82-104 | insert if absent; the result says whether it was absent |
| `Database.Db.Link` | database/db.c:93-100 | the new node adds one binding and keeps the tree valid |
| `Database.Db.Remove` | database/db.c:106-182 | delete from the map in all three cases; the result says whether it was there |
| `Database.Db.Unlink` | database/db.c:122-142 | the node leaves the tree and only its binding goes |
| `Database.Db.Successor` | database/db.c:149-166 | the loop ends at the smallest node of the right subtree and at the link that points to it |
| `Database.Db.Splice` | database/db.c:169-171 | the successor's node leaves the tree and only the deleted binding goes |
| `CouplingInvariant.Undisturbed` | database/db.c:67-220 | a thread's part of the invariant depends only on the cells it holds or walked and on routes to the node it searches from |
| `CouplingSteps.GrantExcludes` | database/db.c:184-220 | a granted lock excludes every conflicting holder |
| `CouplingSteps.StepAt` | database/db.c:194-203 | locking the next node on the route keeps the invariant: nobody else walked it |
| `CouplingSteps.StepCoupled` | database/db.c:205-209 | comparing names and releasing the parent keeps the invariant |
| `CouplingSteps.StepWalk` | database/db.c:154-168 | one walk step, or the release of the right child, keeps the invariant |
| `CouplingSteps.StepWalkLocked` | database/db.c:160-165 | unlocking a chain node at once keeps the invariant: the node is remembered as walked |
| `CouplingWrites.StepAdd` | database/db.c:93-100 | linking a new node keeps the invariant of every thread |
| `CouplingWrites.StepUnlink` | database/db.c:122-142 | bypassing a node keeps the invariant of every thread |
| `CouplingWrites.SpliceUndisturbed` | database/db.c:169-171 | moving the successor up under `dnode`'s write lock leaves every other thread's key below the node it holds |
| `CouplingWrites.StepSplice` | database/db.c:169-171 | the splice keeps the invariant although the chain's locks were released |
| `CouplingWrites.StepDoomed` | database/db.c:175-175 | freeing the node that was cut out keeps the invariant |
| `CouplingSafety.StepKeepsInv` | database/db.c:67-220 | every step of every thread keeps the invariant |
| `CouplingSafety.CallKeepsInv` | database/db.c:305-354 | a new call keeps the invariant |
| `CouplingSafety.WantsBelowHeld` | database/db.c:106-220 | the lock a thread asks for is on a strict descendant of every node it holds |
| `CouplingSafety.SomeoneCanStep` | database/db.c:106-220 | while some operation is unfinished, some thread can step |
| `CouplingSafety.OnlyConflictsBlock` | database/db.c:184-220 | a thread waits only for another that holds the lock it wants, and a query never waits for a query |
| `CouplingSafety.WritesCover` | database/db.c:82-182 | a step changes no cell outside its declared write set |
| `CouplingSafety.ReadsDecideThread` | database/db.c:67-220 | where a step takes its thread depends only on the cells of its declared read set |
| `CouplingSafety.ReadsDecideWrites` | database/db.c:82-182 | and so does what it writes |
| `CouplingSafety.NoRace` | database/db.c:106-220 | no cell that one thread's next step writes is read or written by another's |
| `CouplingSafety.FreedIsPrivate` | database/db.c:124-175 | a node about to be freed is not held, walked, awaited or referenced by another thread |
| `CouplingSafety.RunKeepsInv` | database/db.c:67-220 | every state of every run satisfies the invariant |
| `CouplingSafety.RunsAreSafe` | database/db.c:67-220 | in every state of every run: steps touch only live memory, no races, private frees, no stuck state, finished operations hold no lock |
| `CouplingSafety.QuiescentIsClean` | database/db.c:67-220 | when all operations are done every lock is free and the allocated cells are exactly a sorted tree |
| `Linearizability.LegalAppend` | database/db.c:67-182 | an operation that answers as the map does extends a legal serial order |
| `Linearizability.StepAnswers` | database/db.c:67-182 | each operation takes effect in one step, with the answer and effect of the map operation |
| `Linearizability.StepKeepsHistory` | database/db.c:67-220 | each step keeps the serial order in agreement with results, calls and returns |
| `Linearizability.RunsAreLinearizable` | database/db.c:67-220 | the calls and returns of every run are explained by a serial order on a map that respects real time; every return has the result of its entry |
| `Linearizability.FinishedReturns` | database/db.c:67-182 | in every run a finished operation has returned exactly once, after its call, with the result of its own entry in the serial order |
| `Linearizability.TreeHoldsReplay` | database/db.c:67-220 | at every moment the tree stores exactly what the serial order leaves in the map |
| `CouplingProgress.OwnCostFalls` | database/db.c:67-220 | every step uses up some of its thread's remaining work, which is bounded by the subtree it is in |
| `CouplingProgress.OthersCost` | database/db.c:67-220 | no step adds to another thread's remaining work: a node added below it is an addition fewer outstanding |
| `CouplingProgress.WorkFalls` | database/db.c:67-220 | every step uses up work in all |
| `CouplingProgress.RunsAreBounded` | database/db.c:67-220 | a run with c calls has at most 2c²+8c+1 states, whatever the scheduling |
| `CouplingProgress.StoppedMeansFinished` | database/db.c:67-220 | a run that no thread can continue has finished every operation |
| `CouplingProgress.FinishedMeansReturned` | database/db.c:67-182 | when all operations are finished, every call of the run is followed by its return |
| `CouplingProgress.RunsFinish` | database/db.c:67-220 | every run can be, and without new calls can only be, continued until all its operations are finished and every call has its return |
| `HeapLayout.BlocksDisjoint` | malloc/mminline.h:11-96 | distinct blocks of a tiling share no word |
| `HeapLayout.BlockBefore` | malloc/mminline.h:83-91 | every block but the prologue has a block that ends where it starts |
| `HeapLayout.EndInjective` | malloc/mminline.h:89-96 | only one block ends at a given place, so `block_prev` undoes `block_next` |
| `HeapLayout.WalkCovers` | malloc/mminline.h:94-96 | following `block_next` meets every block once and the sizes sum to the extent |
| `HeapLayout.PullKeepsLinks` | malloc/mminline.h:141-151 | the two link writes leave a circular doubly linked list of the other blocks |
| `HeapLayout.InsertKeepsLinks` | malloc/mminline.h:154-173 | the four link writes leave a circular doubly linked list with the block in front |
| `LayoutEdits.CutCoalesced` | malloc/mm.c:316-332 | after a split without coalescing no two neighbours are both free |
| `LayoutEdits.FreedCoalesced` | malloc/mm.c:114-157 | in all four cases merging leaves no two neighbours both free |
| `LayoutEdits.CoalesceDone` | malloc/mm.c:114-157 | after merging the list holds each free block once and nothing else |
| `LayoutEdits.GrowCoalesced` | malloc/mm.c:169-191 | extension keeps neighbours from being both free |
| `FreeList.PullEffect` | malloc/mminline.h:141-151 | pulling keeps tiling and tags, the list without the block, and all live payloads |
| `FreeList.InsertEffect` | malloc/mminline.h:154-173 | inserting keeps tiling and tags, the list with the block in front, and all live payloads |
| `BlockOps.CutEffect` | malloc/mm.c:316-332 | the tag writes of `split` give two blocks that tile the old one, with agreeing tags |
| `BlockOps.AbsorbEffect` | malloc/mm.c:114-157 | one tag write over a run of free blocks gives a single block with agreeing tags |
| `BlockOps.GrowEffect` | malloc/mm.c:169-191 | overwriting the epilogue and writing a new one tiles the larger heap |
| `HeapModel.FitIsBest` | malloc/mm.c:239-265 | the running choice of the scan is the first smallest fitting block of the list, and none exactly when none fits |
| `HeapModel.OutsidePull` | malloc/mm.c:114-157 | pulling a merged neighbour out of the list leaves the others in their order |
| `Allocator.NeededFits` | malloc/mm.c:232-232 | the block size is a multiple of 8, at least the minimum, and leaves room for payload and tags |
| `Allocator.NeededIsLeast` | malloc/mm.c:232-232 | no smaller multiple of 8 is a block size with room for payload and tags |
| `Allocator.Smallest` | malloc/mm.c:205-211 | the identity on every difference up to 2·`nsize`+1, which covers its only call from outside |
| `Allocator.TagReads` | malloc/mminline.h:19-31 | size and allocated bit are recovered from a tag |
| `Allocator.Heap.constructor` | malloc/memlib.c:27-36 | an empty heap over the whole storage |
| `Allocator.Heap.ResetBrk` | malloc/memlib.c:51-53 | the heap is empty again |
| `Allocator.Heap.Sbrk` | malloc/memlib.c:63-73 | fails without effect exactly when the increment is negative or exceeds the storage |
| `Allocator.Heap.SetSize` | malloc/mminline.h:47-53 | both tags get the size and the bit that the header had |
| `Allocator.Heap.SetAllocated` | malloc/mminline.h:58-67 | both tags get the bit and keep the size |
| `Allocator.Heap.SetSizeAndAllocated` | malloc/mminline.h:69-73 | both tags are written and no other word |
| `Allocator.Heap.BlockPrev` | malloc/mminline.h:83-91 | the block that ends where this one starts |
| `Allocator.Heap.BlockNext` | malloc/mminline.h:94-96 | the block that starts where this one ends |
| `Allocator.Heap.PullFree` | malloc/mminline.h:141-151 | the list loses exactly this block and `flist_first` is null exactly when it was the last |
| `Allocator.Heap.InsertFree` | malloc/mminline.h:154-173 | the list gains the block in front |
| `Allocator.Heap.InFreeList` | malloc/mm.c:83-102 | the traversal ends and finds exactly the members of the list |
| `Allocator.Heap.Coalesce` | malloc/mm.c:114-157 | a listed block is merged with exactly its free neighbours and they leave the list, the others keeping their order; the invariant between calls holds again and live blocks are untouched; a block that is not in the list changes nothing at all |
| `Allocator.Heap.Init` | malloc/mm.c:44-71 | succeeds exactly when three blocks fit: prologue, one free block of the minimum size, epilogue; the invariant holds with no live block |
| `Allocator.Heap.Free` | malloc/mm.c:291-303 | blocks and list are exactly those of the model's release; exactly this block stops being live, no other live block or payload changes |
| `Allocator.Heap.Split` | malloc/mm.c:316-332 | cuts exactly when the rest is at least twice the need; the rest becomes the first free block |
| `Allocator.Heap.BestFit` | malloc/mm.c:239-265 | the first smallest block of the list that fits, or null exactly when none does; it is the one the model chooses |
| `Allocator.Heap.ExtendHeap` | malloc/mm.c:169-191 | the old epilogue becomes the block; failure changes nothing |
| `Allocator.Heap.TakeFree` | malloc/mm.c:273-277 | the block becomes live, with exactly the need if it was split, and less than three times the need in any case; the rest goes in front of the list |
| `Allocator.Heap.Serve` | malloc/mm.c:234-277 | the outcome is the model's: which block, which split, which list, or failure |
| `Allocator.Heap.Malloc` | malloc/mm.c:225-278 | best fit; extends exactly when nothing fits; fails exactly when the heap cannot grow either, changing nothing; blocks and list are exactly the model's; live blocks and payloads are kept |
| `Allocator.Heap.ClientWrite` | malloc/mdriver.c:584-584 | a write into a live payload touches no tag and no link |
| `Allocator.Heap.HeapIsTiled` | malloc/memlib.c:101-103 | the blocks met from the prologue on are all the blocks and their sizes sum to `mem_heapsize()` |
| `Driver.ContainerIsMissed` | malloc/mdriver.c:374-375 | the overlap test passes 8..39 against the recorded 16..23 |
| `Driver.ClearIsAlmostDisjoint` | malloc/mdriver.c:374-375 | a range is disjoint from all recorded ones exactly when the test passes it and it does not strictly contain one |
| `Driver.NewPayloadClear` | malloc/mdriver.c:372-381 | the payload of a block that was not live shares no byte with a recorded range |
| `Traces.TraceNext` | malloc/mdriver.c:556-640 | what one more operation does to the sizes asked for, the number of live blocks, the demand and the model, and that a freed id was live |
| `Traces.DemandGrows` | malloc/mdriver.c:556-640 | no beginning of a trace needs more than the whole |
| `Traces.DeadStays` | malloc/mdriver.c:556-568 | a trace whose beginning fails, fails |
| `Driver.OverlaidBytes` | malloc/mdriver.c:584-584 | the first bytes of an overlaid word are the pattern and the others those of the old word |
| `Driver.Tester.AddRange` | malloc/mdriver.c:347-394 | accepts exactly aligned ranges inside the heap whose ends lie in no recorded range |
| `Driver.Tester.RemoveRange` | malloc/mdriver.c:399-411 | drops the first range with this start |
| `Driver.Tester.DoAlloc` | malloc/mdriver.c:562-588 | accepted exactly when a free block fits or the heap can grow; then the id owns a range of exactly the size asked for, a block with room for it and its byte all over the payload; blocks, list and block chosen are the model's; all other owners keep what they own; a refusal changes nothing |
| `Driver.Tester.DoFree` | malloc/mdriver.c:629-634 | exactly the id's range and block go, the heap is the model's after the release, and all other owners keep what they own |
| `Driver.Tester.Fill` | malloc/mdriver.c:584-584 | all `size` bytes are the low byte of the id; no other payload changes |
| `Driver.Tester.Perform` | malloc/mdriver.c:556-640 | one operation leads from the state of the operations before it to the state including it; it stops exactly at an allocation of the trace's size that the heap cannot meet |
| `Driver.Tester.EvalValid` | malloc/mdriver.c:537-644 | returns 1 exactly when the model meets every request of the trace in this storage; then each live id owns a range, block and pattern of the size it last asked for, at the address of the model; returns 0 only at an allocation that the heap, in the state reached, cannot meet; a trace whose demand fits the storage always gives 1 |
| `Maze.Opposite` | maze/generator.c:18-33 | 0 and 1, 2 and 3 are opposite; stepping back through the opposite wall returns to the room |
| `Maze.IndexInRange` | maze/common.c:21-40 | the index of a room lies in the array |
| `Maze.IndexInjective` | maze/common.c:21-23 | different rooms have different indices |
| `Maze.Grid.Clear` | maze/generator.c:189-194 | every room unvisited, every wall undecided |
| `Generator.Shuffle` | maze/generator.c:45-53 | the swaps that the four random numbers call for; still each direction once |
| `Generator.ShuffledIsPermutation` | maze/generator.c:45-53 | for any random numbers each direction is there once |
| `Generator.EveryOrder` | maze/generator.c:45-53 | every order of the directions comes from some random numbers |
| `Generator.WallKeepsInv` | maze/generator.c:103-113 | copying a decided wall, or closing it, keeps the invariant of the walk |
| `Generator.EnterKeepsInv` | maze/generator.c:91-102 | opening a wall into an unvisited room extends the tree by one leaf |
| `Generator.Walker.DecideWall` | maze/generator.c:103-113 | the wall gets the neighbour's value, or 1 |
| `Generator.Walker.ProcessDirection` | maze/generator.c:85-114 | the direction is decided, no other wall of a visited room changes, and the walk goes on as the random numbers say |
| `Generator.Walker.DrunkenWalk` | maze/generator.c:70-116 | ends, visits the room, leaves visited rooms alone, keeps the tree of passages; which rooms are entered from which is exactly the reference walk `Roam` over the random numbers, and as many numbers are used up |
| `Generator.Walker.Generate` | maze/generator.c:187-198 | the walk from the corner leaves the invariant with no room in progress, and the tree of the reference walk |
| `SpanningTree.WalkIsPerfect` | maze/generator.c:70-116 | every room visited, no wall undecided, walls symmetric, the border closed |
| `SpanningTree.WalkIsTree` | maze/generator.c:70-116 | the open passages are exactly the edges of one tree over all rooms |
| `SpanningTree.SimplePathExists` | maze/generator.c:70-116 | any two rooms are joined by a simple path |
| `SpanningTree.SimplePathUnique` | maze/generator.c:70-116 | and by only one |
| `SpanningTree.OneSimplePath` | maze/generator.c:70-116 | exactly one simple path joins any two rooms |
| `Solver.NotReached` | maze/solver.c:86-124 | a failed search has visited all that can be reached, and the goal cannot |
| `Solver.EraseConcat` | maze/solver.c:88-124 | erasing loops can be done piece by piece |
| `Solver.PrintedIsWalk` | maze/solver.c:88-124 | what the full build prints is a walk through open passages of a symmetric maze |
| `Solver.Search.Dfs` | maze/solver.c:86-124 | with any rooms visited already: finds the goal or closes off everything it entered; the `next` chain is a simple path; rooms seen and rooms printed, dead ends included, are those of the reference tour, directions 0 to 3 in turn |
| `Solver.TourShowsAll` | maze/solver.c:88-124 | the reference tour prints every room it sees |
| `Solver.Search.PrintPruned` | maze/solver.c:136-144 | ends, and prints the rooms of the chain |
| `Solver.Search.Solve` | maze/solver.c:242-251 | for every maze: success exactly when the goal is reachable; the pruned output is a simple path; the full output is the reference tour, starts at the start, ends at the goal or the start, its loop erasure is the pruned path, and on failure it shows every reachable room |
| `MazeFile.EncodeBits` | maze/generator.c:127-130 | decoding an encoded room gives its walls |
| `MazeFile.BitsEncode` | maze/generator.c:127-130 | encoding a decoded digit gives the digit |
| `MazeFile.Connections` | maze/solver.c:32-61 | the walls are the binary digits of the code |
| `MazeFile.EncodeMaze` | maze/generator.c:145-153 | the code of every room at its index |
| `MazeFile.Print` | maze/generator.c:208-213 | a line for each row, a hexadecimal digit for each room, and nothing else |
| `MazeFile.LinesHoldDigits` | maze/generator.c:208-213 | white space apart, the file is the digits of all rooms in order |
| `MazeFile.ReadHex` | maze/solver.c:228-228 | the next non-blank character if it is a digit, the old value otherwise, with a sign used up |
| `MazeFile.Load` | maze/solver.c:226-238 | every room gets its place, no visit, and the walls of its own digit |
| `MazeFile.LoadedWalls` | maze/solver.c:226-238 | what was saved is loaded, wall for wall |
| `MazeFile.BitsAreCompass` | maze/common.h:10-15 | bit by bit, north, south, west and east of a room |
| `MazeFile.LoadedPassages` | maze/solver.c:226-238 | the room at (r, c) of a loaded maze has a passage to (r-1, c), (r+1, c), (r, c-1), (r, c+1), and nowhere else, exactly when that room exists and bit 1, 2, 4, 8 of its digit is clear |
| `MazeFile.SavedPassages` | maze/generator.c:127-130 | the same of a maze that was saved |
| `MazeFile.MakeMaze` | maze/generator.c:187-198 | the generated maze is perfect and its passages form the spanning tree that the random numbers lead to |
| `MazeFile.GenerateAndSolve` | maze/solver.c:226-251 | generate, save, load and solve prints the only simple path of the generated maze, for every start and goal |
| `Tokenizer.Strspn` | stringsperf/strings/strings.c:54-74 | the length of the longest prefix of accepted characters |
| `Tokenizer.Strcspn` | stringsperf/strings/strings.c:87-107 | the length of the longest prefix of characters not rejected |
| `Tokenizer.Position` | stringsperf/strings/strings.c:61-65 | stops before the terminator exactly when the character is in the set |
| `Tokenizer.RunsExact` | stringsperf/strings/strings.c:188-217 | the list of tokens is exactly the maximal non-empty delimiter-free runs, in order |
| `Tokenizer.StampedOnly` | stringsperf/strings/strings.c:209-211 | the byte behind each token is null and no other byte has changed |
| `Tokenizer.StampedReads` | stringsperf/strings/strings.c:209-216 | a token handed out reads as its run of the original text |
| `Tokenizer.Strtok.Next` | stringsperf/strings/strings.c:188-217 | one call: the first run from the cursor on, the byte behind it nulled, the cursor behind that; null without effect on the text when there is none |
| `Tokenizer.Strtok.Session` | stringsperf/strings/strings.c:188-217 | any number of calls hands out the runs of the original text in order and then null for ever, each token reading as its run |
| `Barrier.StepKeepsInv` | database/pthread_OSX.c:85-102 | every statement of every thread, and every wake-up, keeps the invariant |
| `Barrier.NobodyLeavesEarly` | database/pthread_OSX.c:85-102 | in every run a thread returns from a generation only after exactly `number` arrivals in it |
| `Barrier.OneSerialThread` | database/pthread_OSX.c:85-102 | a generation anyone has returned from has exactly one serial return; its returns and the threads still in it are `number` together |
| `Barrier.NoLostWakeup` | database/pthread_OSX.c:88-99 | with the mutex free, whoever sleeps belongs to the current, incomplete generation |
| `Barrier.StuckMeansTooFew` | database/pthread_OSX.c:85-102 | if nobody in the barrier can move, all of them sleep in the current generation and are fewer than `number` |
| `Barrier.WeightFalls` | database/pthread_OSX.c:85-102 | every step but a new call or a groundless wake-up brings its thread nearer to returning or sleeping, and takes no other thread away from it |
| `Barrier.MeasureFalls` | database/pthread_OSX.c:85-102 | so every such step lowers one measure of the whole barrier |
| `Barrier.RunsAreBounded` | database/pthread_OSX.c:85-102 | with n threads a run has at most 6n+1 steps for each call and each groundless wake-up, whatever the scheduling |
| `Barrier.EveryoneReturns` | database/pthread_OSX.c:85-102 | when they have come to rest, all `number` threads of every completed generation have returned, one with the serial value |
| `Barrier.Settles` | database/pthread_OSX.c:85-102 | from every state the threads in the barrier come to rest by their own statements |
| `Barrier.InitInv` | database/pthread_OSX.c:69-77 | a new barrier satisfies the invariant |
| `Jobs.JobList.constructor` | shell_2/jobs.c:24-29 | an empty list |
| `Jobs.JobList.AddJob` | shell_2/jobs.c:72-107 | -1 without effect on a null string; otherwise 0 and the job at the end; the iterator stays where it was, or at the first job of a list that was empty |
| `Jobs.JobList.RemovePid` | shell_2/jobs.c:152-191 | exactly the first job with the pid goes; the iterator keeps its place among the others |
| `Jobs.JobList.UpdatePid` | shell_2/jobs.c:219-241 | exactly the first job with the pid changes state |
| `Jobs.JobList.GetPid` | shell_2/jobs.c:244-259 | the pid of the first job with the jid, or -1 |
| `Jobs.JobList.GetJid` | shell_2/jobs.c:262-277 | the jid of the first job with the pid, or -1 |
| `Jobs.JobList.GetNextPid` | shell_2/jobs.c:285-298 | the pid under the iterator, or -1 at the end and back to the head |
| `Reap.SurvivorsExact` | shell_2/reap.c:12-104 | a job is left after a round exactly when it was there and was not reported terminated |
| `Reap.SurvivorStates` | shell_2/reap.c:24-85 | a job left is one that was there with state "Stopped" if it was stopped, "Running" if it was resumed, and its old state otherwise |
| `Reap.ReportsExact` | shell_2/reap.c:24-85 | a message is written exactly when the status of some job calls for it, with its ids and its signal or exit code |
| `Reap.SurvivorsOrdered` | shell_2/reap.c:12-104 | jids still grow along the list and pids still differ |
| `Reap.Shell.constructor` | shell_2/sh.c:31-35 | the shell starts ready, with no jobs |
| `Reap.Shell.Launch` | shell_2/sh.c:55-113 | the new job is last with a larger jid; the shell stays ready for the next prompt exactly when the fork succeeded |
| `Reap.Shell.ReapHelp` | shell_2/reap.c:12-92 | polls the job once and keeps, relabels or unlinks it; the iterator does not skip or repeat a job |
| `Reap.RoundOrdered` | shell_2/reap.c:94-104 | the list after a round is ordered and holds only jobs that were there |
| `Reap.Shell.Reap` | shell_2/reap.c:94-104 | in a ready shell: polls every job present at the start exactly once, in order, keeps the survivors, reports each change, and ends with the iterator at the head; in general the same from the iterator up to the first job without a process, where the iterator is left behind it |
| `Reap.Shell.WaitChild` | shell_2/reap.c:106-146 | the job is removed if it ended, marked if it stopped; the shell is ready again |
| `Polynomial.PolyNaive` | stringsperf/performance/poly_naive.c:32-41 | the sum of a[k]·x^k |
| `Polynomial.HornerIsValue` | stringsperf/performance/poly_naive.c:32-41 | Horner's rule gives the same value |
| `Polynomial.ValueByLanes` | stringsperf/performance/poly.c:41-57 | the polynomial is its constant term and the five lanes, each times its own power |
| `Polynomial.Accumulate` | stringsperf/performance/poly.c:41-57 | the loop leaves the five lanes and stops at the residue of the degree |
| `Polynomial.Poly` | stringsperf/performance/poly.c:33-122 | for every degree from 4 on the result exceeds the polynomial by `Error`, which is 0 for residues 0, 1, 2; it is right exactly when `Agrees` holds |
| `Polynomial.EveryBadDegreeFails` | stringsperf/performance/poly.c:88-115 | every degree of residue 3 or 4 has a polynomial that is evaluated wrongly |

## Left out

- `mm_realloc`: its growth paths pass a payload pointer where a block pointer is expected and pull a neighbour without checking that it is free; malloc/README lists it as faulty.
- `mm_check_heap`: mostly printing; the invariant is `Allocator.Heap.Valid`.
- Driver.Tester.AddRange: states the test as written; `Driver.ClearIsAlmostDisjoint` says what it misses.
- Driver.Tester.RemoveRange: the list of ranges is a sequence, so the unlinking of heap-allocated range records is not captured.
- Driver.Tester.EvalValid: traces of allocations and frees; REALLOC operations are not modelled, for the reason above.
- Database.Db.Remove: the capacity of the character buffers that `snprintf` writes is not modelled, nor is a failing `malloc` in `node_constructor`; names and values are whole strings.
- CouplingSafety.RunsAreSafe: memory safety of cells and locks; the character buffers are not modelled, and `snprintf` with MAXLEN (db.c:169-170) can write past the buffer that `node_constructor` sized to an old, shorter name.
- Database.DbNode.constructor: the length test and the failing allocations of `node_constructor`, whose null result `db_add` does not test.
- Barrier.NobodyLeavesEarly: the generation counter does not wrap around, and `number` is at least 1.
- MazeFile.Connections: for a code above 15, which no digit has, only that the walls are 0 or 1.
- MazeFile.Load: end of file and other input errors leave `hex` as it was, as in the source, whose result code is not tested.
- Solver.Search.Solve: requires start and goal inside the grid, which `main` checks before.
- Reap.Shell.Launch: requires the pid of a new process to differ from those in the list, which the kernel sees to.
- Jobs.JobList.AddJob: the test for a null list; a method has its object.
- Polynomial.Poly: real arithmetic, without rounding; below degree 4 the source reads outside the array.
- Polynomial.Accumulate: takes the lanes as a ghost argument to be compared with.
- `update_job_jid`, `remove_job_jid`, `jobs`, `cleanup_job_list`: the same loops again, or printing.
- `strlen`, `strncmp`, `strstr`: single loops that would add only easy members.
- The rwlock of database/pthread_OSX.c: it never counts writers and does not exclude; the database model uses abstract locks.
- database/server.c, client.c, comm.c, `db_print`, `interpret_command`: threads, signals, sockets and files.
- data/, buffer/, shell_1/, the parser and process control of shell_2/, malloc/fcyc.c and the timing code: bit identities, system calls or measurements.
