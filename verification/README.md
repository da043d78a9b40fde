# Verified models of the ATPESC I/O and MPI examples

This project models the protocols, simulations and file layouts behind the MPI tutorial programs, the IOR and
mdtest benchmarks and the minifloat converters of this repository, and proves what they are meant to guarantee.
MPI and the file system appear as small step semantics: an exclusive-lock epoch is one atomic step, messages
between two ranks arrive in order, puts reach their window in any order inside an epoch, collective file access is
a set of writes in any order.  Every statement about a parallel program is about all its interleavings: a run is a
sequence of events (`Executes`, `Final`), and the theorems quantify over all runs from the initial state.  What MPI
may let happen (`Enabled`) and what it must let happen (`CanStep`, or `Enabled` with `strict`) are kept apart: safety
is proved for everything the first admits, and freedom from deadlock when only the second can be relied on.

| files | what they model |
|---|---|
| `Mutex*.dfy` | the distributed mutex of `mpimutex.c`: one byte per rank on the home rank, wake-up messages, round-robin hand-over |
| `Life*.dfy` | the parallel game of life: `mlife2d.c` with point-to-point exchange (`mlife2d-pt2pt.c`) and with one-sided puts (`mlife2d-fence.c`), and the row-block program `mlife.c` with `mlife-pt2pt.c` |
| `Pneo*.dfy` | the spiking network `pneo_pscw.c` under post, start, complete and wait |
| `Mdtest*.dfy` | the numbered directory tree of `mdtest.c`, its recursive makers and removers, the path climb of the stat phase, the whole cycle over one shared tree or a tree per task |
| `Minifloat*.dfy` | the E4M3 and E5M2 converters of `BENCH_minifloat.c` and their in-place loops |
| `Csr*.dfy` | the sparse-matrix file of `csrio-mpiio.c`, byte for byte |
| `Ior*.dfy` | IOR's offset arrays (`ior.c`), data patterns, stonewalled phases with wear-out, and the MPI-IO file view (`aiori-MPIIO.c`) |
| `S3*.dfy` | part numbers and the completion list of multi-part uploads (`aiori-S3.c`) |
| `Arith.dfy`, `Counting.dfy` | products, quotients and positional notation; sizes of sets and multisets: shared by the others |

Code that changes things step by step is modelled by classes and methods with loops (`MutexWorld.World`,
`LifeTile.Tile`, `PneoCell.Cell`, `MdtestRun.Task`, `CsrFile.File`, `IorRandom.Rng`, `IorTask.Task`,
`S3Upload.Upload`, the buffer loops of `MinifloatBuffer`).  Each method is proved equal to a specification function
or to a step of the corresponding machine, and the theorems are about those.

## Where the code falls short of its promise

Each of these is stated with the exact condition, proved in both directions.

- `CsrProofs.LastRowRead`: the comment at csrio-mpiio.c:15 gives the file n + 1 row starts, the writer stores n, and
  the reader needs the extra one.  A range that includes the last row is read correctly exactly when the entry found
  in its place happens to equal the number of nonzeros.
  `CsrProofs.LastRowMissed` is the smallest matrix it misreads.
- `S3Proofs.PartsInFileOrderIff`: the check that a strided shared file uses one transfer per block is commented out
  (ior.c:1640-1650).  Part numbers follow file order exactly for a file per process, at most one segment, block size
  equal to transfer size, or a single task.  (The comment in `S3_Close_internal` that a rank writes every P-th part,
  P being the parts per rank, is not what the code does; it numbers with a stride of the number of tasks.)
- `MdtestUnique.CycleWorksIff`: with a directory per task (`-u`) the root name is shifted by the neighbour stride but
  the names of the directories below it are not (mdtest.c:2000-2007).  The whole iteration succeeds and restores the
  file system exactly when the depth is 0 or the stride is a multiple of the number of tasks; otherwise the first
  create phase already fails.
- `IorPhaseProofs.DisplacedBlockMissed`: a check phase that reads the block of another access finds it exactly when
  the ranks differ and a transfer has a whole word, or the offsets differ, are stored (`storeFileOffset`) and a
  transfer has two.  `IorPhaseProofs.MissedInputs` gives two inputs it misses.
- `MinifloatBuffer.WidenSpecial`: every E4M3 code with the top exponent is NaN here (BENCH_minifloat.c:84), where the
  OCP 8-bit floating point format of that name has one NaN of each sign and keeps the other mantissas finite.

## Model

| member | source | states |
|---|---|---|
| Mutex.NextRankIsNearest | mpi2tutorial/examples/mutex/mpimutex.c:178-202 | the rank chosen for the wake-up is the waiting rank nearest after the unlocker on the ring, and never the unlocker |
| Mutex.ExpandOthers | mpi2tutorial/examples/mutex/mpimutex.c:44-51 | a fetched copy, put back into rank numbering, is the waitlist with the own byte clear, so scanning the copy decides whether any other byte is set |
| MutexSafety.StepInv | mpi2tutorial/examples/mutex/mpimutex.c:97-219 | every step of every rank keeps the token invariant |
| MutexSafety.RunInv | mpi2tutorial/examples/mutex/mpimutex.c:97-219 | so does every interleaving of any length |
| MutexSafety.MutualExclusion | mpi2tutorial/examples/mutex/mpimutex.c:97-219 | in every reachable state at most one rank is between the return of Lock and the epoch of Unlock |
| MutexSafety.OneTokenIffWaitlistNonEmpty | mpi2tutorial/examples/mutex/mpimutex.c:106-209 | holders, unlockers that owe a wake-up and messages in flight together are exactly one if some byte is set, and none otherwise |
| MutexSafety.WakeupsReachWaiters | mpi2tutorial/examples/mutex/mpimutex.c:124-209 | a wake-up in flight or about to be sent goes to another rank whose byte is set and which is waiting for it; never two to one rank |
| MutexFairness.StepDistance | mpi2tutorial/examples/mutex/mpimutex.c:174-209 | while a rank's byte stays set no step takes the token further from it and every unlock brings it strictly nearer |
| MutexFairness.BoundedBypass | mpi2tutorial/examples/mutex/mpimutex.c:174-209 | from any reachable state, at most n - 1 hand-offs and n - 1 entries of other ranks happen while a rank's byte stays set; after n - 1 the token is on its way to it |
| MutexFairness.TokenCanMove | mpi2tutorial/examples/mutex/mpimutex.c:124-209 | whether or not a send is buffered: the rank that has the token, or that a message carries it to, can take its next step, or has to wait for a receiver that can |
| MutexFairness.StuckOnlyWhenIdle | mpi2tutorial/examples/mutex/mpimutex.c:124-209 | if no call in progress can step, even with a send that blocks until its receive is posted, no call is in progress and every byte is clear |
| MutexFairness.EveryCallCompletes | mpi2tutorial/examples/mutex/mpimutex.c:97-219 | a run with k Lock calls has at most 6k steps, and one that cannot go on, even if no send is ever buffered, has completed every call and restored the initial state |
| MutexWorld.World.constructor | mpi2tutorial/examples/mutex/mpimutex.c:58-68 | the waitlist starts with every byte clear |
| MutexWorld.World.Epoch | mpi2tutorial/examples/mutex/mpimutex.c:106-121 | one epoch fetches the other bytes as they were and stores the own one |
| MutexWorld.World.LockEpochStep | mpi2tutorial/examples/mutex/mpimutex.c:105-121 | the array program's step is the machine's step |
| MutexWorld.World.LockCheckStep | mpi2tutorial/examples/mutex/mpimutex.c:124-127 | the same, for the scan in Lock |
| MutexWorld.World.ReceiveStep | mpi2tutorial/examples/mutex/mpimutex.c:127-133 | the same, for the receive of the wake-up |
| MutexWorld.World.UnlockEpochStep | mpi2tutorial/examples/mutex/mpimutex.c:156-172 | the same, for Unlock's epoch |
| MutexWorld.World.UnlockScanStep | mpi2tutorial/examples/mutex/mpimutex.c:174-202 | the same, for Unlock's scans |
| MutexWorld.World.SendStep | mpi2tutorial/examples/mutex/mpimutex.c:205-209 | the same, for the wake-up sent, which may block until the receiver waits |
| MutexWorld.AnyoneElse | mpi2tutorial/examples/mutex/mpimutex.c:125-127 | the scan finds a set byte if and only if there is one |
| MutexWorld.FindNext | mpi2tutorial/examples/mutex/mpimutex.c:181-202 | the wrap-around scan of the compressed copy, with its index correction, returns in rank numbering the nearest waiting rank; the assertion that it is not the unlocker holds |
| LifeBoard.CutCovers | mpi2tutorial/examples/life/mlife2d.c:216-239 | blocks of a cut cover every position exactly once |
| LifeBoard.TilesPartitionBoard | mpi2tutorial/examples/life/mlife2d.c:216-239 | every board cell is in the interior of exactly one tile |
| LifeBoard.HaloOffBoard | mpi2tutorial/examples/life/mlife2d.c:195-207 | a halo row or column is off the board exactly when there is no neighbour on that side |
| LifeRule.LifeStep | mpi2tutorial/examples/life/mlife2d.c:244-258 | a cell of the sequential game lives in the next generation if and only if three of the cells around it live, or two do and it lives itself |
| LifeRule.SweepIsLife | mpi2tutorial/examples/life/mlife2d.c:131-141 | the same for every interior cell of a tile under the compute loops |
| LifeGrid.SweepAdvances | mpi2tutorial/examples/life/mlife2d.c:131-141 | a sweep over a fully padded tile of generation k gives generation k + 1 and leaves both buffers' off-board boundary dead, so the swap is safe |
| LifePt2pt.OutgoingIsEdge | mpi2tutorial/examples/life/mlife2d-pt2pt.c:48-72 | what a rank sends is its edge of the sequential game; full rows are right once the halo columns are in |
| LifePt2pt.EdgeIsHalo | mpi2tutorial/examples/life/mlife2d-pt2pt.c:48-72 | a neighbour's edge has the length of the receive and stands for the same board cells as the halo it fills |
| LifePt2pt.IncomingFillsHalo | mpi2tutorial/examples/life/mlife2d-pt2pt.c:48-72 | a receive fills its halo with the sender's generation and leaves the rest of the tile right |
| LifePt2pt.NoNeighbourHalo | mpi2tutorial/examples/life/mlife2d.c:94-102 | a side without neighbour needs no message: its halo was set dead once and is never written |
| LifePt2pt.BothPhasesPad | mpi2tutorial/examples/life/mlife2d-pt2pt.c:48-72 | after both phases every cell of the padded tile, all four corners included, equals the zero-padded board |
| LifeAsync.StepInv | mpi2tutorial/examples/life/mlife2d.c:127-141 | every step of every rank keeps the invariant that ties tiles and channels to the sequential game |
| LifeAsync.RunInv | mpi2tutorial/examples/life/mlife2d.c:127-141 | so does every interleaving |
| LifeOutcome.EveryReachableState | mpi2tutorial/examples/life/mlife2d.c:127-141 | in every reachable state each tile holds its rank's generation of the sequential game, neighbours are at most one iteration apart, and the next message on a channel is the edge of the receiver's generation |
| LifeOutcome.StuckMeansDone | mpi2tutorial/examples/life/mlife2d-pt2pt.c:48-72 | a run that cannot go on has finished all iterations on all ranks: no deadlock, even if no message is buffered and every MPI_Waitall waits for the own sends to be received |
| LifeOutcome.RunLength | mpi2tutorial/examples/life/mlife2d.c:127-146 | no run has more than seven steps a rank and iteration |
| LifeOutcome.FinishedIsGeneration | mpi2tutorial/examples/life/mlife2d.c:127-146 | the tiles of any finished run glue to generation n of the sequential game |
| LifeDecomp.MeshDecomp | mpi2tutorial/examples/life/mlife2d.c:168-240 | the numbers computed are the neighbours and blocks of one layout of the whole grid, with MPI_PROC_NULL exactly at its border |
| LifeDecomp.MeshNeighbours | mpi2tutorial/examples/life/mlife2d.c:187-207 | the neighbours as plain numbers: one rank left and right within a row of the grid, one row of ranks up and down, none at the ends |
| LifeDecomp.MeshBlocks | mpi2tutorial/examples/life/mlife2d.c:209-239 | the blocks as plain numbers: equal sizes, the last ones with the remainder |
| LifeDecomp.MeshCutIsCut | mpi2tutorial/examples/life/mlife2d.c:216-239 | the mesh blocks are non-empty, consecutive and cover all rows or columns |
| LifeDecomp.MeshLayoutFits | mpi2tutorial/examples/life/mlife2d.c:168-240 | any process grid no larger than the matrix partitions it |
| LifeDecomp.RankSplits | mpi2tutorial/examples/life/mlife2d.c:187-191 | rank and grid coordinates determine each other |
| LifeDecomp.RowBlocks | mpi2tutorial/examples/life/mlife.c:183-205 | row counts and offsets fit together without gap or overlap, the last block ends at the last row, none is empty; counts differ by at most one and never grow with the rank |
| LifeDecomp.RowLayoutFits | mpi2tutorial/examples/life/mlife.c:183-205 | any rank count up to the number of rows partitions the matrix |
| LifeDecomp.GridIndependence | mpi2tutorial/examples/life/mlife.c:132-147 | any legal two-dimensional grid and any number of row blocks, each under any finished interleaving, hold the same value in every cell: that of generation n |
| LifeTile.Tile.ClearBoundary | mpi2tutorial/examples/life/mlife2d.c:94-102 | the boundary of both buffers becomes dead |
| LifeTile.Tile.Fill | mpi2tutorial/examples/life/mlife2d.c:104-118 | seeding each row by its board row and skipping the draws to the left gives the tile its part of one board-wide pattern: each cell is the draw of its board column after its board row's seed |
| LifeTile.Tile.Initialise | mpi2tutorial/examples/life/mlife2d.c:94-118 | the set-up of any tile is the initial state of the machine for one board that does not depend on the grid |
| LifeTile.XorBits | mpi2tutorial/examples/life/mlife2d.c:106 | a digit of the seed is set if and only if it is set in just one of 1000 and the row |
| LifeTile.SeedsDiffer | mpi2tutorial/examples/life/mlife2d.c:106 | different rows have different seeds |
| LifeTile.Tile.ReceiveColumn | mpi2tutorial/examples/life/mlife2d-pt2pt.c:48-60 | a strided receive changes exactly one halo column |
| LifeTile.Tile.ReceiveRow | mpi2tutorial/examples/life/mlife2d-pt2pt.c:62-72 | a full-row receive changes exactly one halo row |
| LifeTile.Tile.NextStateAt | mpi2tutorial/examples/life/mlife2d.c:244-258 | the branches give the rule of the sequential game on the padded tile |
| LifeTile.Tile.Advance | mpi2tutorial/examples/life/mlife2d.c:131-141 | the compute loops and the swap are the sweep of the specification; of dead and live cells, exactly those live afterwards with three live cells around them, or two and alive |
| LifeFence.PutHitsHalo | mpi2tutorial/examples/life/mlife2d-fence.c:142-159 | the displacements computed from the neighbours' sizes take each edge cell to the halo cell of the same board position |
| LifeFence.NoOverlap | mpi2tutorial/examples/life/mlife2d-fence.c:138-162 | within an epoch no two elements have the same target, and none is read where another is written |
| LifeFence.EpochEffect | mpi2tutorial/examples/life/mlife2d-fence.c:138-162 | any order of arrival has the effect of all elements moving at once |
| LifeFence.FenceExchangePads | mpi2tutorial/examples/life/mlife2d-fence.c:103-164 | whatever the order within the two epochs, the exchange pads every tile completely, corners included |
| LifeFence.FenceEqualsPt2pt | mpi2tutorial/examples/life/mlife2d-fence.c:103-164 | the one-sided exchange and the point-to-point one leave the same padded tile |
| LifeFence.PutIsMessage | mpi2tutorial/examples/life/mlife2d-fence.c:138-162 | one put, its elements landing in any order, does to the target tile what the message to that side does in the point-to-point program, and nothing to any other tile |
| LifeFence.IterationGood | mpi2tutorial/examples/life/mlife2d.c:127-141 | one iteration with the one-sided exchange takes all tiles from generation k to k + 1 and keeps the other window's boundary dead |
| LifeFence.SetUpGood | mpi2tutorial/examples/life/mlife2d.c:94-118 | the set-up makes both windows what the first iteration needs |
| LifeFence.FenceRunsTheGame | mpi2tutorial/examples/life/mlife2d.c:127-146 | from the set-up, after any number of iterations with any orders of arrival, every tile holds its part of that generation |
| Pneo.SlotsAgree | mpi2tutorial/examples/pneo/pneo_pscw.c:167-192 | the displacement a source computes is the slot at which the destination recorded that source |
| Pneo.SlotsCover | mpi2tutorial/examples/pneo/pneo_pscw.c:167-192 | without duplicate pairs every slot of a window belongs to exactly one connection |
| Pneo.NeuronRule | mpi2tutorial/examples/pneo/pneo_pscw.c:214-255 | a neuron above 4 starts afresh and any other keeps its level; it then grows by one and by the number of connections whose source was above 4 |
| PneoRun.StepInv | mpi2tutorial/examples/pneo/pneo_pscw.c:83-97 | every step, and every arrival of a put, keeps the invariant |
| PneoRun.ComputeLevel | mpi2tutorial/examples/pneo/pneo_pscw.c:214-226 | the sum at a compute gives the level of the synchronous network |
| PneoRun.WaitSlots | mpi2tutorial/examples/pneo/pneo_pscw.c:88-97 | when wait returns every slot is exactly what its source did in this round |
| PneoRun.EveryRunIsSynchronous | mpi2tutorial/examples/pneo/pneo_pscw.c:83-97 | in every interleaving, whether or not start blocks for the posts, each rank's state and window are those of the synchronous network |
| PneoRun.StuckMeansDone | mpi2tutorial/examples/pneo/pneo_pscw.c:83-97 | a run that cannot go on has taken every rank through all its rounds, even if start waits for the posts and complete for the arrival of the own puts |
| PneoRun.RunLength | mpi2tutorial/examples/pneo/pneo_pscw.c:83-97 | no run has more than six steps a rank and round and one arrival a connection, rank and round |
| PneoCell.FindDisp | mpi2tutorial/examples/pneo/pneo_pscw.c:167-192 | the inner counting loop returns the number of earlier connections into the destination |
| PneoCell.Cell.constructor | mpi2tutorial/examples/pneo/pneo_pscw.c:104-201 | the arrays built from the connection list are those the slot lemmas speak of, and the globals are those of the machine's first state |
| PneoCell.Cell.ComputeState | mpi2tutorial/examples/pneo/pneo_pscw.c:214-226 | the state grows by one and by the number of slots with a spike, and the window is cleared: the machine's step out of Compute |
| PneoCell.Cell.Fire | mpi2tutorial/examples/pneo/pneo_pscw.c:228-255 | above 4 a spike is put to every destination at its slot and the state reset, otherwise nothing happens: the machine's step out of Output, with the puts it adds |
| MdtestTree.BranchCount | benchmarking/ior-3.2.1+atpesc/src/mdtest.c:459-535 | the recursion visits, once each, exactly the descendants within the depth |
| MdtestTree.LevelBound | benchmarking/ior-3.2.1+atpesc/src/mdtest.c:2319-2330 | the directories down to a level are exactly the first so many numbers |
| MdtestTree.NumDirsCounts | benchmarking/ior-3.2.1+atpesc/src/mdtest.c:2319-2330 | num_dirs_in_tree is the number of directories, for branch factor 1 and above |
| MdtestTree.DirsVisitedOnce | benchmarking/ior-3.2.1+atpesc/src/mdtest.c:1790-1868 | the directory ids made are exactly 0 to num_dirs_in_tree - 1, each once |
| MdtestTree.DirPathInjective | benchmarking/ior-3.2.1+atpesc/src/mdtest.c:1828-1837 | different directories have different paths |
| MdtestFs.EachIsReal | benchmarking/ior-3.2.1+atpesc/src/mdtest.c:1790-1868 | when all operations succeed, each found its parent there and its name free, or what it removes or looks up there and empty, and changed that one name |
| MdtestFs.MakeBranch | benchmarking/ior-3.2.1+atpesc/src/mdtest.c:1790-1868 | the recursive creator finds every parent present and adds exactly the branch |
| MdtestFs.RemoveBranch | benchmarking/ior-3.2.1+atpesc/src/mdtest.c:1790-1868 | the recursive remover finds every directory empty and removes exactly the branch |
| MdtestTrees.TreesIndependent | benchmarking/ior-3.2.1+atpesc/src/mdtest.c:2029-2042 | tasks that work in trees of their own at once do not disturb each other: every interleaving succeeds if each task alone does, and leaves each tree as its own operations leave it |
| MdtestTrees.MakeTrees | benchmarking/ior-3.2.1+atpesc/src/mdtest.c:1986-2007 | all trees made at once: nothing fails and exactly their directories are added |
| MdtestTrees.RemoveTrees | benchmarking/ior-3.2.1+atpesc/src/mdtest.c:2029-2098 | all trees removed at once: nothing fails and exactly they are gone |
| MdtestCycle.ItemsMadeOnce | benchmarking/ior-3.2.1+atpesc/src/mdtest.c:459-535 | each item number of a directory of the tree, in leaf-only mode of its last level, is made once, and no other |
| MdtestCycle.StatRange | benchmarking/ior-3.2.1+atpesc/src/mdtest.c:554-578 | the item numbers the stat loop runs through, shifted in leaf-only mode, are exactly those made |
| MdtestCycle.MakePhase | benchmarking/ior-3.2.1+atpesc/src/mdtest.c:386-412 | in any order of all tasks' steps every make succeeds and exactly the items are added |
| MdtestCycle.RemovePhase | benchmarking/ior-3.2.1+atpesc/src/mdtest.c:386-412 | in any order every remove succeeds and exactly the items are gone |
| MdtestCycle.ShiftTrades | benchmarking/ior-3.2.1+atpesc/src/mdtest.c:1993-1999 | under a shift a task treats the item of the task so many places on, its own if and only if the shift is a multiple of the tasks |
| MdtestCycle.StatPhase | benchmarking/ior-3.2.1+atpesc/src/mdtest.c:538-642 | looking up entries succeeds in any order and changes nothing |
| MdtestCycle.ShiftCoversAll | benchmarking/ior-3.2.1+atpesc/src/mdtest.c:1993-1999 | over all tasks, names shifted by any number of strides are the same set of items |
| MdtestCycle.ItemsCycle | benchmarking/ior-3.2.1+atpesc/src/mdtest.c:839-979 | all items made, looked up and removed by all tasks at once, each time under names shifted by another number of tasks: nothing fails, and the trees are left as they were |
| MdtestCycle.CycleRestores | benchmarking/ior-3.2.1+atpesc/src/mdtest.c:1901-2098 | make the tree, or one tree per task; make, stat and remove directories, then files; remove the trees: nothing fails and the file system is back where it started |
| MdtestUnique.CodePathShape | benchmarking/ior-3.2.1+atpesc/src/mdtest.c:1993-2007 | the path the program builds for an item, component by component: the shifted root, directories each the child of the one before, the item under the shifted name |
| MdtestUnique.WhoTreatsWhat | benchmarking/ior-3.2.1+atpesc/src/mdtest.c:1994-1999 | in a test a task makes its own items, looks up those one stride on and removes those three strides on |
| MdtestUnique.CodeIsStep | benchmarking/ior-3.2.1+atpesc/src/mdtest.c:1993-2007 | the path the program builds in a phase, root and sub-directories and item, is the path of that item in its home tree, where trees and stride fit together |
| MdtestUnique.CycleFails | benchmarking/ior-3.2.1+atpesc/src/mdtest.c:2000-2007 | where they do not, the whole iteration fails under every interleaving |
| MdtestUnique.CycleWorksIff | benchmarking/ior-3.2.1+atpesc/src/mdtest.c:1901-2098 | the whole iteration, stat phases included, succeeds under a possible interleaving and restores the file system if and only if the tree is shared, or has depth 0, or the stride is a multiple of the tasks |
| MdtestUnique.IterationPossible | benchmarking/ior-3.2.1+atpesc/src/mdtest.c:1901-2098 | every configuration has an iteration, so the two results above are never empty |
| MdtestUnique.StatLoopsArePhase | benchmarking/ior-3.2.1+atpesc/src/mdtest.c:538-642 | the stat loops of all tasks, each over its own shuffle, are a stat phase of the cycle |
| MdtestRun.Task.CreateRemoveDirectoryTree | benchmarking/ior-3.2.1+atpesc/src/mdtest.c:1790-1868 | the recursion performs exactly the specified operations, in order |
| MdtestRun.Task.CreateRemoveBranch | benchmarking/ior-3.2.1+atpesc/src/mdtest.c:1834-1866 | the same, for the body of its loop |
| MdtestRun.Task.CreateRemoveItemsHelper | benchmarking/ior-3.2.1+atpesc/src/mdtest.c:386-412 | the loop over the items of one directory performs exactly their operations |
| MdtestRun.Task.CreateRemoveItems | benchmarking/ior-3.2.1+atpesc/src/mdtest.c:459-535 | the item recursion performs exactly the operations of all item numbers below a directory |
| MdtestRun.Task.CreateRemoveItemsBranch | benchmarking/ior-3.2.1+atpesc/src/mdtest.c:497-533 | the same, for the body of its loop |
| MdtestRun.ClimbPath | benchmarking/ior-3.2.1+atpesc/src/mdtest.c:595-614 | the climbing loop rebuilds exactly the path the recursion made the item under |
| MdtestRun.Stat | benchmarking/ior-3.2.1+atpesc/src/mdtest.c:538-642 | the paths looked up are those of the item numbers, in order |
| MdtestRun.Shuffle | benchmarking/ior-3.2.1+atpesc/src/mdtest.c:2355-2391 | whatever rand yields, the array is a permutation of the item numbers |
| MdtestRun.StatLooksUpWhatWasMade | benchmarking/ior-3.2.1+atpesc/src/mdtest.c:554-578 | after any shuffle the stat phase looks up each item made exactly once and nothing else |
| MdtestRun.DirsWithItemsCount | benchmarking/ior-3.2.1+atpesc/src/mdtest.c:2331-2353 | the divisor is the number of directories of the tree, or of its last level |
| MdtestRun.SetUpCounts | benchmarking/ior-3.2.1+atpesc/src/mdtest.c:2276-2353 | items and items per directory agree with the tree, at most as many as asked for and as many as fit evenly; with both -n and -I, as many items as asked for in as many loops as hold them |
| MinifloatProofs.NarrowMonotone | hdf5/BENCH_minifloat.c:130-209 | narrowing is monotone on all non-negative finite binary32 numbers |
| MinifloatProofs.NarrowWiden | hdf5/BENCH_minifloat.c:87-209 | narrowing undoes widening on every finite code of both formats |
| MinifloatProofs.SignSymmetry | hdf5/BENCH_minifloat.c:130-209 | both directions treat the sign bit alone |
| MinifloatProofs.WidenExact | hdf5/BENCH_minifloat.c:87-116 | the table entry of a finite code has exactly its sign and value |
| MinifloatProofs.WidenIsFormula | hdf5/BENCH_minifloat.c:103-114 | the entry of a finite code has the value of the builder's own formula, mantissa over its range times a power of two |
| MinifloatProofs.Landmarks | hdf5/BENCH_minifloat.c:605-606 | one, the largest finite number and the least subnormal of both formats, in both directions: the parameters of the two formats |
| MinifloatProofs.ValueStrictlyMonotone | hdf5/BENCH_minifloat.c:87-116 | a value has one non-negative bit pattern, so the entry is determined by its value |
| MinifloatProofs.Saturates | hdf5/BENCH_minifloat.c:142-164 | from half a step below the top exponent on every finite number goes to the overflow code |
| MinifloatProofs.NarrowSpecial | hdf5/BENCH_minifloat.c:137-184 | infinities and NaN keep their sign and never become finite, and E5M2 keeps them apart |
| MinifloatProofs.OverflowMeaning | hdf5/BENCH_minifloat.c:144-147 | the overflow code is the largest finite code of E4M3 and the infinity of E5M2 |
| MinifloatProofs.NormalError | hdf5/BENCH_minifloat.c:158-166 | below that a normal result is finite and at most half a spacing off, ties rounding up |
| MinifloatProofs.SubnormalError | hdf5/BENCH_minifloat.c:148-155 | below the normal range the value is cut off by less than one subnormal step |
| MinifloatBuffer.BuildWidenLut | hdf5/BENCH_minifloat.c:87-116 | every entry of the table: finite codes with their sign and the value of the formula, the top exponent as infinity or NaN |
| MinifloatBuffer.WidenSpecial | hdf5/BENCH_minifloat.c:95-101 | a code with the top exponent widens to infinity if and only if the format is E5M2 and the mantissa zero, and to NaN otherwise |
| MinifloatBuffer.SplitJoin | hdf5/BENCH_minifloat.c:309-345 | a word is its four bytes, the lowest first |
| MinifloatBuffer.NarrowInPlace | hdf5/BENCH_minifloat.c:336-345 | on one shared buffer of any length the upward loop is the elementwise conversion of the old words |
| MinifloatBuffer.WidenInPlace | hdf5/BENCH_minifloat.c:309-315 | the downward loop is the elementwise conversion of the old bytes |
| MinifloatBuffer.RoundTrip | hdf5/BENCH_minifloat.c:309-345 | widening a buffer in place and narrowing it again restores every finite code |
| CsrProofs.PrevNzIsStart | mpi2tutorial/examples/sparsemat/csrio-mpiio.c:308-312 | the sum of the counts of lower ranks is the start of a rank's first row in the whole matrix |
| CsrProofs.WritesAreBlocks | mpi2tutorial/examples/sparsemat/csrio-mpiio.c:321-388 | each rank's writes are its slices of the whole matrix, at their places in the layout |
| CsrProofs.WritesApart | mpi2tutorial/examples/sparsemat/csrio-mpiio.c:352-365 | no two writes overlap, of one rank or of two |
| CsrProofs.EveryByteWritten | mpi2tutorial/examples/sparsemat/csrio-mpiio.c:321-388 | every byte of the layout is written by some rank |
| CsrProofs.WrittenFile | mpi2tutorial/examples/sparsemat/csrio-mpiio.c:282-394 | for any row split and any order of all writes the file begins with the one layout of the matrix |
| CsrLayout.WrittenEntries | mpi2tutorial/examples/sparsemat/csrio-mpiio.c:282-394 | after all writes in any order: the sizes at byte 80, each row start, column and value at its place |
| CsrLayout.IntBytesAreDigits | mpi2tutorial/examples/sparsemat/csrio-mpiio.c:331-388 | an integer is stored as its digits to base 256, the lowest first |
| CsrProofs.HeaderRoundTrip | mpi2tutorial/examples/sparsemat/csrio-mpiio.c:103-137 | title (up to 79 characters), n and nz come back |
| CsrProofs.RowsRoundTrip | mpi2tutorial/examples/sparsemat/csrio-mpiio.c:171-265 | any range ending before the last row is read as that slice of the matrix, or refused when the caller's buffer is too small |
| CsrProofs.WriteThenRead | mpi2tutorial/examples/sparsemat/csrio-mpiio.c:171-394 | written with one split and read with any other range before the last row: the slice of the matrix, or the error if and only if the caller gives less room than the slice needs |
| CsrLayout.AllOrNone | mpi2tutorial/examples/sparsemat/csrio-mpiio.c:208-240 | a job reads ranges before the last row: if every rank has room each gets the count, starts, columns and values of its rows, and otherwise all get the error |
| CsrProofs.LastRowRead | mpi2tutorial/examples/sparsemat/csrio-mpiio.c:191-212 | a range with the last row is read correctly if and only if the entry after it equals the number of nonzeros |
| CsrProofs.LastRowMissed | mpi2tutorial/examples/sparsemat/csrio-mpiio.c:191-212 | the one-row matrix with its nonzero in column 0 is misread |
| CsrFile.FillTitle | mpi2tutorial/examples/sparsemat/csrio-mpiio.c:322-329 | the title block: the first 79 characters of the title, then zeros |
| CsrFile.Globalise | mpi2tutorial/examples/sparsemat/csrio-mpiio.c:338-345 | each row start is moved up by the nonzeros of the lower ranks |
| CsrFile.Localise | mpi2tutorial/examples/sparsemat/csrio-mpiio.c:258-262 | in place, every row start is reduced by the first one |
| CsrFile.File.WriteAt | mpi2tutorial/examples/sparsemat/csrio-mpiio.c:328-335 | a read at the offset delivers the data written, and every byte of the old file outside it is kept |
| CsrFile.WriteRank | mpi2tutorial/examples/sparsemat/csrio-mpiio.c:282-394 | one rank's call performs exactly its specified writes |
| CsrFile.ReadHeader | mpi2tutorial/examples/sparsemat/csrio-mpiio.c:103-114 | from a file that begins with the layout of a matrix: the title as far as it was kept, n and nz |
| CsrFile.ReadEntries | mpi2tutorial/examples/sparsemat/csrio-mpiio.c:191-208 | the row starts and the entry after them; what the file does not deliver stays as it was |
| CsrFile.ReadRowRange | mpi2tutorial/examples/sparsemat/csrio-mpiio.c:171-265 | one rank's call delivers the specified rows or the error, with my_ia updated in place |
| IorOffsets.GetOffsetArraySequential | benchmarking/ior-3.2.1+atpesc/src/ior.c:1660-1693 | the array holds the task's accesses in order and the end mark |
| IorOffsets.OffsetIsTransfer | benchmarking/ior-3.2.1+atpesc/src/ior.c:1677-1690 | every access is a whole transfer below the end of the file |
| IorOffsets.PlaceInFile | benchmarking/ior-3.2.1+atpesc/src/ior.c:1677-1690 | block number modulo the tasks is the rank, segment and place in the block those of the access; in a file of its own the k-th access is the k-th transfer |
| IorOffsets.SequentialBijection | benchmarking/ior-3.2.1+atpesc/src/ior.c:1677-1690 | in a shared file each transfer is the access of exactly one task at one place in its array |
| IorRandom.CountOffsets | benchmarking/ior-3.2.1+atpesc/src/ior.c:1732-1743 | pass 1 returns the number of transfers whose draw is the rank, or all of an own file |
| IorRandom.DealOffsets | benchmarking/ior-3.2.1+atpesc/src/ior.c:1759-1767 | pass 2 fills exactly the slots pass 1 counted, and leaves the end mark |
| IorRandom.ShuffleInPlace | benchmarking/ior-3.2.1+atpesc/src/ior.c:1768-1774 | the swap loop, slot by slot |
| IorRandom.GetOffsetArrayRandom | benchmarking/ior-3.2.1+atpesc/src/ior.c:1710-1778 | the array is a function of the stream and the kept seed, and of a shared file holds a transfer if and only if its draw modulo the tasks is the rank; writes and reads keep a fresh seed, checks use the kept one |
| IorRandom.WriteThenCheck | benchmarking/ior-3.2.1+atpesc/src/ior.c:1720-1726 | whatever happens to the generator in between, the check pass rebuilds the array of the write, for the own data and, with a file per task, for those of any other task |
| IorRandom.ShuffleIsPermutation | benchmarking/ior-3.2.1+atpesc/src/ior.c:1768-1774 | the swaps keep every offset |
| IorRandom.RandomOrder | benchmarking/ior-3.2.1+atpesc/src/ior.c:1745-1774 | the accesses start out ascending; then place after place is exchanged with the place drawn for it, the draws following those that dealt the transfers |
| IorRandom.RandomPartition | benchmarking/ior-3.2.1+atpesc/src/ior.c:1732-1774 | the arrays of all tasks together are all transfers of the shared file, each once |
| IorRandom.OnlyOwnerAccesses | benchmarking/ior-3.2.1+atpesc/src/ior.c:1759-1767 | an array holds transfer x if and only if draw x modulo the tasks is the rank |
| IorRandom.OwnFileInFull | benchmarking/ior-3.2.1+atpesc/src/ior.c:1753-1757 | with one file per task every task accesses its whole file, all in the same order |
| IorCheck.FillBuffer | benchmarking/ior-3.2.1+atpesc/src/ior.c:639-651 | even words have the rank above and the time stamp below, odd words the offset plus their place |
| IorCheck.CompareBuffers | benchmarking/ior-3.2.1+atpesc/src/ior.c:329-425 | the number of differing words, zero if and only if the buffers are equal, with the first and last difference |
| IorCheck.MismatchCount | benchmarking/ior-3.2.1+atpesc/src/ior.c:639-651 | the exact number of errors: even words if and only if ranks or stamps differ, odd words if and only if offsets do |
| IorSteps.AccessMoves | benchmarking/ior-3.2.1+atpesc/src/ior.c:1861-1869 | after an access a task goes on unless the deadline has passed, the limit is reached or its array is at its end |
| IorSteps.TransferTouches | benchmarking/ior-3.2.1+atpesc/src/ior.c:1780-1832 | an access is made in the name of the task the rank offset further on; a write stores rank, stamp and offset there and nothing elsewhere, a check counts the words that differ |
| IorSteps.StopsAtDeadline | benchmarking/ior-3.2.1+atpesc/src/ior.c:1861-1869 | in every run a task stops at the first access after which the deadline has passed, the limit is reached or its array is at its end, and at no other |
| IorPhaseProofs.StepCounts | benchmarking/ior-3.2.1+atpesc/src/ior.c:1838-1905 | every step keeps the pair-count invariant |
| IorPhaseProofs.PhaseEnds | benchmarking/ior-3.2.1+atpesc/src/ior.c:1838-1905 | no phase runs for ever, and one that cannot go on is over for every task |
| IorPhaseProofs.CanFinish | benchmarking/ior-3.2.1+atpesc/src/ior.c:1838-1905 | from every reachable state some continuation ends the phase for every task |
| IorPhaseProofs.KeysDistinct | benchmarking/ior-3.2.1+atpesc/src/ior.c:1677-1690 | no two accesses of the job touch the same place |
| IorPhaseProofs.WritePhase | benchmarking/ior-3.2.1+atpesc/src/ior.c:1861-1905 | whenever the deadline fires for whichever tasks, all end with one count, and exactly the first so many accesses of every task are on disk |
| IorPhaseProofs.LimitAfter | benchmarking/ior-3.2.1+atpesc/src/ior.c:1305-1308 | the iteration limit carried on allows exactly the written accesses |
| IorPhaseProofs.CheckFindsNoError | benchmarking/ior-3.2.1+atpesc/src/ior.c:1311-1337 | at every point of any later check phase, with any rank offsets and a deadline firing again, only written transfers were touched and no error is counted |
| IorPhaseProofs.CheckIsExact | benchmarking/ior-3.2.1+atpesc/src/ior.c:1800-1832 | a finished check reports a failed transfer, an error, or neither, if and only if one of the transfers it made could not be read, was read but not intact, or all were intact |
| IorPhaseProofs.ForeignBlockFound | benchmarking/ior-3.2.1+atpesc/src/ior.c:358-377 | a transfer that holds another rank's block, or one with another time stamp, is counted as an error |
| IorPhaseProofs.BlocksDiffer | benchmarking/ior-3.2.1+atpesc/src/ior.c:639-651 | the data of two accesses differ if and only if the ranks do and a word holds the rank, or the offsets do and are stored and a word holds the offset |
| IorPhaseProofs.DisplacedBlockMissed | benchmarking/ior-3.2.1+atpesc/src/ior.c:1800-1832 | a finished check over one displaced block misses it if and only if that condition fails |
| IorPhaseProofs.MissedInputs | benchmarking/ior-3.2.1+atpesc/src/ior.c:639-651 | two blocks of one rank at different offsets are equal: without stored offsets, and with them in one-word transfers |
| IorTask.Task.constructor | benchmarking/ior-3.2.1+atpesc/src/ior.c:1328-1331 | without stored offsets the pattern of the task is in both buffers before the phase |
| IorTask.Task.WriteOrReadSingle | benchmarking/ior-3.2.1+atpesc/src/ior.c:1780-1832 | one access of one task is the transfer of the machine |
| IorTask.Task.AccessLoop | benchmarking/ior-3.2.1+atpesc/src/ior.c:1861-1869 | the loop makes the accesses in order and ends as said for WriteOrRead |
| IorTask.Task.WriteOrRead | benchmarking/ior-3.2.1+atpesc/src/ior.c:1838-1905 | the task stops at the least access after which the deadline has passed, the limit is reached or its array ends, and wear-out brings it to the largest count |
| IorView.SeekInvertsView | benchmarking/ior-3.2.1+atpesc/src/aiori-MPIIO.c:430-466 | for every access the seek formula finds its number, and the view maps that back to the absolute offset |
| IorView.ViewsPartition | benchmarking/ior-3.2.1+atpesc/src/aiori-MPIIO.c:206-235 | the views of the tasks are disjoint and cover the shared file |
| IorView.ViewHidesOthers | benchmarking/ior-3.2.1+atpesc/src/aiori-MPIIO.c:206-235 | no position of a task's view is an access of another task |
| S3Upload.PartNumbersDistinct | benchmarking/ior-3.2.1+atpesc/src/aiori-S3.c:769-781 | two writes of a shared file have the same part number if and only if they are the same write |
| S3Upload.Upload.Xfer | benchmarking/ior-3.2.1+atpesc/src/aiori-S3.c:769-848 | in a shared file the number a write takes is that of no other write of the job; its tag is appended |
| S3Upload.ListParts | benchmarking/ior-3.2.1+atpesc/src/aiori-S3.c:1150-1200 | the nested loops and the walking pointer list, at each place, that place's number with the tag of the write that belongs there |
| S3Proofs.GatheredTag | benchmarking/ior-3.2.1+atpesc/src/aiori-S3.c:1080-1110 | tag k of rank r is where the list looks for it in the tags of all ranks gathered one after the other |
| S3Proofs.ListedTag | benchmarking/ior-3.2.1+atpesc/src/aiori-S3.c:1150-1200 | under the number a write was uploaded with the list names the tag that write got |
| S3Proofs.PartIsListPosition | benchmarking/ior-3.2.1+atpesc/src/aiori-S3.c:769-781 | the list has a write at a place if and only if the place is the number the write was uploaded under; so every write is listed once |
| S3Proofs.PartIsOffset | benchmarking/ior-3.2.1+atpesc/src/aiori-S3.c:769-781 | with one segment, or one transfer per block, the part number is the file offset divided by the transfer size |
| S3Proofs.PartsInFileOrderIff | benchmarking/ior-3.2.1+atpesc/src/aiori-S3.c:769-781 | exactly when that holds for every write |
| S3Proofs.ObjectIsFile | benchmarking/ior-3.2.1+atpesc/src/aiori-S3.c:1150-1200 | the completed object holds every write at its file offset |

## Left out

- Real MPI, HDF5, S3 and file-system calls, timing, statistics, output, argument parsing, allocation failures and error aborts.
- Integer overflow of C types, except in the byte encodings of `Csr.dfy` and the 64-bit words of `IorCheck.dfy`; `pow` is exact integer power.
- The mutex with a waitlist byte other than zero or one: a byte is modelled by the test the program makes on it.
- Checkpoint and restart of Life (`mlife-io-*.c`), `sweepomp3.c`, `pneo_fence.c`, the process-grid choice of `MPI_Dims_create` (the grid is a parameter), and the Life random generator's distribution (a function of seed and draw).
- mlife-pt2pt.c has no model of its own: it is the case of one process column of the two-dimensional machine, where its two messages are the full-row phase.
- mdtest: several directory loops, collective creation, shared files, reading, stonewalling, a branch factor below 1, negative strides; doubled slashes in paths are taken as one.
- MdtestRun.Shuffle: the values of rand are arbitrary within the range the code scales them to.
- MdtestCycle.CycleRestores: the test directory itself, whose creation and removal frame the cycle, is taken as present throughout; phases do not overlap, which is what the barriers between them are for (`-B` removes them, and is refused together with a stride, mdtest.c:1618).
- FP6 and FP4 converters, strided buffers (handed to `H5Tconvert`), and the payload and sign of NaN.
- MinifloatBuffer.BuildWidenLut: the builder's float expressions are evaluated over the reals; their mantissas have at most four bits, so none of them rounds.
- MinifloatBuffer.NarrowInPlace: words are taken as little-endian.
- CsrProofs.PrevNzIsStart: `MPI_Exscan` leaves the result of rank 0 undefined; it is taken as 0 (csrio-mpiio.c:308).
- CSR reads use the header's n and nz; collective error codes other than the buffer-size check are not modelled; values are moved as eight bytes without interpretation.
- CsrFile.WriteRank: the collective write of the three blocks is three writes; that their order across ranks does not matter is CsrProofs.WrittenFile.
- LifeFence.FenceRunsTheGame: all ranks iterate together; for ranks that run ahead of each other LifeFence.PutIsMessage makes each put a message, and the results of LifeOutcome are about those.
- IorRandom.WriteThenCheck: another task's data is checked only with a file per task, since random offsets with reordered tasks in a shared file are refused (ior.c:1586-1591).
- IOR: plain reads that compare nothing, random offsets with wear-out, stonewalling without wear-out, incompressible data packets, reordering options beyond an arbitrary rank offset per task, and the other backends.
- IorTask.Task.WriteOrRead: one task at a time on its own view of the disk; the interleaving of tasks is the machine of IorPhase.
- S3: uploads cut short by a stonewall, file-per-process uploads beyond their part numbers, and byte-range writes of the EMC extensions.
