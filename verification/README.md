# The OCFS2 driver, modelled in Dafny

A model of five parts of the OCFS2 cluster file system driver, with proofs of what each promises.

- **Cluster locks** (`LockRes`, `LockProtocol`, `LockWitness`, `InodeCoherence`): the lock resource with
  every critical section of `dlmglue.c` as a method on its fields, which is proved equal to the function the
  machine uses and to keep the resource's invariant; a machine of N nodes with any number of
  lockers, the downconvert thread, the callbacks and a DLM, each critical section one atomic step; and the
  inode attributes that travel by lock value block or by disk. A step whose BUG_ON fires stops the machine.
- **Extent trees** (`ExtentLeaf`, `ExtentBTree`, `ExtentPatch`, `ExtentLeaves`, `ExtentTree`,
  `ExtentTruncate`, `TruncateLog`): the B+tree of `alloc.c` at any depth. `ExtentLeaf` has the lists of
  records and their array form, `ExtentBTree` the nodes above the leaves with a view as a row of leaves and
  boundaries, `ExtentPatch` what list operations do to the mapping of clusters, `ExtentLeaves` the same
  across leaves, and `ExtentTree` the operations in place. `ExtentTruncate` has the punch-hole loop and the
  tail truncation, `TruncateLog` the log of freed runs.
- **Indexed directories** (`DirBlock`, `DirBytes`, `DirIndex`, `IndexedDir`, `IndexedBytes`): blocks tiled by
  records, as lists and in their bytes, the hash index over an extent tree, and the list of blocks with room,
  of `dir.c`; `IndexedBytes` has the operations of the whole directory on the bytes.
- **Extent cache and its readers** (`ExtentMap`): `extent_map.c` over the extent tree.
- **Block checks** (`BitMath`, `BlockCheck`, `BlockCheckBuffers`): the CRC and Hamming code of
  `blockcheck.c`, repaired in place, over one buffer or many, with the codes stored inside or apart.

What the DLM does is assumed as follows: it grants only compatible levels; each request ends in one AST or
one successful cancel; a BAST for a level comes only while the level granted to the node conflicts with it;
a downconvert is turned down only by the call itself; a lock with a request in the DLM is not dropped, and a
lock that has been dropped takes no request and no cancel (`dlm/dlmunlock.c` lines 525-580). The safety results
need no more. The DLM in the repository also delivers in order: it sends the ASTs it owes before any BAST (`dlm/dlmthread.c` lines 569-661),
and a node ignores a BAST for a request it has not been granted (`dlm/dlmast.c` lines 338-362). `InOrder` states
this, and only `BugsInOrder` and `OnlyStaleCancel` use it. The CRC is a parameter that composes over chunks, the
name hash an arbitrary function. New metadata blocks and clusters come from a fresh supply. Physical
addresses are counted in clusters, and a record with a physical address stands for one with a block number
other than 0.

Where the code does not do what it sets out to do, the model follows the code:

- Cutting the left part off the only record of the last leaf leaves the range of that leaf as it was
  (`alloc.c` lines 5390-5450 skip the edge update for a leaf of one record). The tree stays searchable, and
  the parameter `x` of the tree's predicates says whether all ranges are exact. A later insert that continues
  the leaf on the left and reaches past the old boundary (`Overruns`) then loses clusters to the walk.
  `InsertExtent` says exactly when, `CutTree` and `OverrunTree` give a tree, and every other operation keeps
  exactness.
- BUG_ONs of the lock glue can fire in two ways. In the first the downconvert thread decides on a cancel and
  drops the spinlock, the request is granted, its AST clears the note of the cancel, a locker makes a new
  request, and the cancel hits that one. `StaleExactly` says at which step, `StaleRun` gives the run.
- In the second a lock is dropped too early. A drop waits for QUEUED alone (`dlmglue.c` line 3552), and the end
  of processing clears QUEUED although a BAST has put the lock back on the list meanwhile (lines 4338-4339).
  `UnguardedExactly` says at which step, `DroppedEarly` has the conditions under which a BUG_ON then fires, one of
  them the check of the list in `ocfs2_lock_res_free()`, and `EarlyDropsReached` has a run for each. Without such
  a step every drop is timely (`QueuedIsTimely`), and the first way is the only one (`OnlyStaleCancel`). A cancel
  of an initial request would need a BAST delivered before the AST of the same lock, which the DLM here does
  not do (`BugsInOrder`).
- The link count is cut to 16 bits in the value block; `SeenExactly` has the condition.
- A replay of the truncate log takes a record off before the bitmap is asked, so a refused run is lost, and a
  run that starts at cluster 0 is dropped; `Log.Flush` has the condition. Between the two stages of recovery
  a dead node's records exist only in memory.
- The end of a SEEK_HOLE that runs past the file is computed by a subtraction that wraps and an addition that
  wraps back; the model uses integers, in which the two cancel the same way.

## Model

| member | source | states |
|---|---|---|
| BlockCheck.CodeBitIsNotParity | coverage/ocfs2_src/blockcheck.c:54-84 | no data bit is stored at a code bit that is a power of two |
| BlockCheck.CodeBitIncreasing | coverage/ocfs2_src/blockcheck.c:54-84 | code bit numbers of successive data bits grow strictly |
| BlockCheck.CodeBitOnto | coverage/ocfs2_src/blockcheck.c:54-84 | every number from 3 on that is not a power of two is the code bit of some data bit |
| BlockCheck.CalcCodeBit | coverage/ocfs2_src/blockcheck.c:54-84 | the numbering with a cached parity count, left by any earlier bit, is the numbering without one |
| BlockCheck.ParityHunks | coverage/ocfs2_src/blockcheck.c:97-142 | the code of two hunks, the second encoded at the offset where the first ends, is the code of the whole |
| BlockCheck.ParityFlip | coverage/ocfs2_src/blockcheck.c:97-142 | flipping one data bit changes the code by exactly the code bit number of that bit |
| BlockCheck.ParityFits | coverage/ocfs2_src/blockcheck.c:97-142 | for blocks of at most 4096 bytes the code fits the 16 bits it is stored in |
| BlockCheck.HammingEncode | coverage/ocfs2_src/blockcheck.c:97-142 | the loop over set bits returns the exclusive-or of the earlier parity and the code of the hunk |
| BlockCheck.FindDamage | coverage/ocfs2_src/blockcheck.c:156-210 | the search returns the one data bit of the hunk stored at the code bit to fix, or none when the code bit is a parity bit or lies before or behind the hunk |
| BlockCheck.HammingFix | coverage/ocfs2_src/blockcheck.c:156-210 | in place: that data bit alone is flipped, and nothing changes when the hunk does not hold it |
| BlockCheck.EccDifference | coverage/ocfs2_src/blockcheck.c:97-147 | the codes of a good block and of one with bit i flipped differ by the code bit of i |
| BlockCheck.BlockCheckCompute | coverage/ocfs2_src/blockcheck.c:349-368 | for a check structure inside the block or in another buffer, and whatever it held: it ends as the CRC and code, stored little-endian, of the block (with the structure zeroed when it is inside), and no other byte changes |
| BlockCheck.BlockCheckValidate | coverage/ocfs2_src/blockcheck.c:378-425 | inside or apart, for every stored CRC and code: 0 and an unchanged block when the CRC agrees; else the one repair the code asks for, 0 or -EIO by the CRC of the result; the two stored codes are back in place and the reserved bytes are as the repair left them |
| BlockCheck.CleanBlock | coverage/ocfs2_src/blockcheck.c:349-425 | a block not touched since its check was computed validates with 0 and is unchanged |
| BlockCheck.SingleBitRepair | coverage/ocfs2_src/blockcheck.c:349-425 | compute, flip any one bit outside the check, validate: the answer is 0, and every byte is back if and only if the CRC tells the two blocks apart |
| BlockCheck.SingleBitRepairApart | coverage/ocfs2_src/blockcheck.c:349-425 | the same for any bit of the block when the check is stored outside it |
| BlockCheckBuffers.EccConcat | coverage/ocfs2_src/blockcheck.c:441-474 | the code carried from buffer to buffer is that of the concatenation |
| BlockCheckBuffers.FixedConcat | coverage/ocfs2_src/blockcheck.c:485-556 | fixing two buffers, each as a hunk at its offset, fixes their concatenation |
| BlockCheckBuffers.CheckOfWhole | coverage/ocfs2_src/blockcheck.c:485-556 | the codes stored in one buffer are those of the whole at the matching offset |
| BlockCheckBuffers.BlockCheckComputeBhs | coverage/ocfs2_src/blockcheck.c:441-474 | for any number of equal buffers, and a check in one of them or apart, the concatenation ends as the single-buffer computation leaves it; with no buffers nothing changes |
| BlockCheckBuffers.BlockCheckValidateBhs | coverage/ocfs2_src/blockcheck.c:485-556 | answer and concatenation are those of the single-buffer validation |
| BlockCheckBuffers.OneFixed | coverage/ocfs2_src/blockcheck.c:529-536 | the fix tried against each buffer changes one of them at most |
| BlockCheckBuffers.SingleBitRepairBhs | coverage/ocfs2_src/blockcheck.c:441-556 | compute, flip any one bit of any buffer outside the check, validate: the answer is 0, and every byte of every buffer is back if and only if the CRC tells the two wholes apart |
| LockRes.BastMeans | coverage/ocfs2_src/dlmglue.c:978-1005 | a BAST: what is blocked is never less than before, and the lock goes on the list exactly when a lower level is now needed than before and it is not being freed |
| LockRes.AstMeans | coverage/ocfs2_src/dlmglue.c:1144-1208 | an AST settles the request at the level asked for or, refused, at the old one; no holder loses its level; a lock is unblocked only at a level beside what it blocked; a later clear by the request's generation does nothing |
| LockRes.UnlockAstMeans | coverage/ocfs2_src/dlmglue.c:1210-1247 | a cancelled request leaves level, holders and what is blocked; a dropped lock is at no level; neither stays busy |
| LockRes.ClusterLockMeans | coverage/ocfs2_src/dlmglue.c:1498-1622 | a locker is admitted only at a level held and, unless its upconvert has just come in, beside what is blocked; a request is made only of a lock that is not busy, for more than is held, marked PENDING; no other way out starts one or admits one |
| LockRes.UnblockMeans | coverage/ocfs2_src/dlmglue.c:3736-3942 | a downconvert starts only to the highest level beside what is blocked, when every holder fits it and the checkpoint test agrees; a cancel is only decided on for a request the DLM has; a lock sent back is unchanged |
| LockRes.AfterWorkerMeans | coverage/ocfs2_src/dlmglue.c:3881-3942 | after the worker a downconvert goes on only if nothing changed, and is then still low enough for what is blocked |
| LockRes.ClearPendingMeans | coverage/ocfs2_src/dlmglue.c:1066-1089 | PENDING is cleared by the generation that set it and by no other, and a second clear by it changes nothing |
| LockRes.FinishMeans | coverage/ocfs2_src/dlmglue.c:4306-4350 | the lock is put back on the list exactly when it is to be looked at again and is not being freed; list and QUEUED disagree afterwards exactly when a BAST has put it on the list meanwhile and it is not put back |
| LockProtocol.PassesMayRun | coverage/ocfs2_src/dlmglue.c:3736-3942 | in every state of the machine, unless the lock was dropped too early, the resource meets what these sections ask of their callers |
| LockProtocol.NodeKeeps | coverage/ocfs2_src/dlmglue.c:917-1669 | every step of lockers, downconvert thread, callbacks and DLM, drops that wait for QUEUED alone included, keeps the node invariant on flags, actions, calls, holders, list and the request at the DLM |
| LockProtocol.StepKeeps | coverage/ocfs2_src/dlmglue.c:917-1669 | every step of every node keeps the invariant of the whole cluster, in which no two nodes are granted incompatible levels |
| LockProtocol.RunKeeps | coverage/ocfs2_src/dlmglue.c:917-1669 | so it holds in every reachable state of every run of N nodes |
| LockProtocol.ExExcludes | coverage/ocfs2_src/dlmglue.c:1498-1622 | in every reachable state an EX holder on one node excludes every holder on all others |
| LockProtocol.DowncvtAdmits | coverage/ocfs2_src/dlmglue.c:917-976 | while a downconvert is in flight, granted or not, holders fit the level converted to and UPCONVERT_FINISHING is clear |
| LockProtocol.PendingProtects | coverage/ocfs2_src/dlmglue.c:1007-1111 | while a thread has decided on a request and not yet called the DLM, PENDING is set, no late clear by an earlier call resets it, the downconvert thread does not cancel, and unless the lock is being dropped it is busy for that request |
| LockProtocol.NoLostKept | coverage/ocfs2_src/dlmglue.c:3736-3942 | every step except a worker that stops the downconvert keeps a blocked lock where its downconvert will be found |
| LockProtocol.NothingLost | coverage/ocfs2_src/dlmglue.c:4306-4412 | over every run in which no worker stops: a blocked lock that is not being freed is listed, in the downconvert thread's hands, or has a downconvert in flight that goes low enough |
| LockProtocol.GenerationsAgree | coverage/ocfs2_src/dlmglue.c:1066-1111 | cut to 32 bits, the generation clears in every reachable state what the full one clears, but for a call that PENDING has outlived by a positive multiple of 2^32 generations |
| LockProtocol.BugExactly | coverage/ocfs2_src/dlmglue.c:766-793 | in any state that meets the invariant every BUG_ON is out of reach but that of an unlock AST with no cancel noted, that of preparing to cancel an initial request, and, exactly under the conditions given, those of a lock that was dropped while listed or in hand |
| LockProtocol.StaleExactly | coverage/ocfs2_src/dlmglue.c:3719-3734 | the first comes about at one step only: the thread calls the DLM to cancel, and either the request it meant is settled and the DLM has a later one, or the DLM has already dropped the lock |
| LockProtocol.UnguardedExactly | coverage/ocfs2_src/dlmglue.c:4336-4342 | the wait for QUEUED lets a drop start while the lock is listed or in hand exactly when the lock is so without QUEUED, and it comes to be so at one step only: the end of processing that does not requeue, or finds FREEING, while a BAST has put the lock back on the list |
| LockProtocol.BugsInOrder | coverage/ocfs2_src/dlmglue.c:3416-3496 | with ASTs delivered before BASTs, over every run of N nodes, the BUG_ONs that fire are exactly that of the unlock AST with no cancel noted and those of a lock dropped too early |
| LockProtocol.OnlyStaleCancel | coverage/ocfs2_src/dlmglue.c:3690-3734 | if in the run every drop starts when the thread has done with the lock, the first is the only one |
| LockProtocol.QueuedIsTimely | coverage/ocfs2_src/dlmglue.c:3507-3565 | over every run: every drop does so as long as no end of processing clears QUEUED of a lock that is back on the list |
| LockWitness.BothBugsReached | coverage/ocfs2_src/dlmglue.c:3690-3734 | a run with in-order delivery and no drop reaches the stale cancel; a run that delivers a BAST before the AST of the same lock reaches the cancel of an initial request |
| LockWitness.EarlyDropsReached | coverage/ocfs2_src/dlmglue.c:3617-3644 | runs with in-order delivery in which a lock is dropped too early reach each of the BUG_ONs left: at the free, at the downconvert without and with a worker, at the call that drops, at the late AST and at the unlock AST |
| LockWitness.LowersGoneRun | coverage/ocfs2_src/dlmglue.c:3617-3634 | step by step and in order: a second BAST relists the lock, QUEUED is cleared, the lock is dropped and the thread goes on to lower a lock at no level |
| LockWitness.StaleRun | coverage/ocfs2_src/dlmglue.c:3719-3734 | step by step and in order: a cancel decided on for a downconvert that is then granted hits a later request |
| InodeCoherence.TimeRoundTrip | coverage/ocfs2_src/dlmglue.c:2146-2205 | a time survives packing if and only if it fits 34 bits of seconds and 30 of nanoseconds |
| InodeCoherence.SeenExactly | coverage/ocfs2_src/dlmglue.c:2160-2247 | all attributes survive the value block if and only if the three times fit and the link count fits 16 bits |
| InodeCoherence.EventKeeps | coverage/ocfs2_src/dlmglue.c:2160-2397 | lock steps, writes, checkpoints, refreshes, deletion and reuse of the inode and loss of the value block keep: refreshed caches, the block about to be handed over, the DLM's block and the disk are current |
| InodeCoherence.CachedIsCurrent | coverage/ocfs2_src/dlmglue.c:2314-2397 | over whole runs: a holder with NEEDS_REFRESH clear sees what the last EX holder left, up to what the block can carry of it, and exactly that when the values fit |
| InodeCoherence.OnlyExIsDirty | coverage/ocfs2_src/dlmglue.c:3996-4025 | over whole runs: what is not checkpointed belongs to the one node that holds EX, so the checkpoint test never finds anything below it |
| InodeCoherence.DiskIsCurrent | coverage/ocfs2_src/dlmglue.c:2314-2397 | over whole runs: whenever a node refreshes, the disk has what the last EX holder left |
| InodeCoherence.GenerationsMatch | coverage/ocfs2_src/dlmglue.c:2367-2380 | over whole runs, in which inodes are wiped and their places reused under any generation: a node that is refreshing finds its own generation on disk |
| ExtentLeaf.AtHole | coverage/ocfs2_src/alloc.c:766-788 | a cluster is mapped exactly when a record covers it |
| ExtentLeaf.ExtentList.RotateIn | coverage/ocfs2_src/alloc.c:1615-1692 | the array after a rotation: without its empty extent and with the record in its place by offset |
| ExtentLeaf.ExtentList.RemoveEmptyExtent | coverage/ocfs2_src/alloc.c:1694-1708 | the array without the empty extent it may begin with |
| ExtentLeaf.ExtentList.CreateEmptyExtent | coverage/ocfs2_src/alloc.c:1717-1740 | the array with one empty extent in front, not two |
| ExtentLeaf.ExtentList.CleanupAfterMerge | coverage/ocfs2_src/alloc.c:3261-3291 | a used-up record makes way for an empty extent in front, the others keep their order |
| ExtentLeaf.ExtentList.RotateOutTo | coverage/ocfs2_src/alloc.c:2112-2207 | two arrays: the last record leaves one and fills the empty slot of the other |
| ExtentBTree.FindLeafRange | coverage/ocfs2_src/alloc.c:1792-1874 | at any depth the walk ends in the leaf whose range has the cluster, the rightmost when none has |
| ExtentBTree.EdgeFixMoves | coverage/ocfs2_src/alloc.c:2042-2110 | at any depth the edge fix-up moves the boundary of two neighbouring leaves and changes nothing else; the child index it takes from the number of records is right because the leaf on the left is full |
| ExtentBTree.FixPairMoves | coverage/ocfs2_src/alloc.c:1962-2027 | the same for the two sides below the subtree root, level by level |
| ExtentBTree.AddBranchExtends | coverage/ocfs2_src/alloc.c:1151-1347 | a branch adds one leaf behind all others and keeps every range, the root growing only if no node below has room |
| ExtentBTree.ShiftDepthKeeps | coverage/ocfs2_src/alloc.c:1354-1437 | one level more keeps all leaves and their ranges and leaves room below the root |
| ExtentBTree.UnlinkShortens | coverage/ocfs2_src/alloc.c:2528-2644 | unlinking the last leaf takes away that leaf alone, with the nodes that only led to it, and the edge lengths end at the new last record |
| ExtentBTree.SetHiKeeps | coverage/ocfs2_src/alloc.c:3954-3989 | changing the lengths along the right edge changes the end of the tree and no boundary |
| ExtentLeaves.RotateRightGood | coverage/ocfs2_src/alloc.c:2112-2207 | one rotation to the right keeps the sequence of non-empty records and every range exact |
| ExtentLeaves.RotateLeftGood | coverage/ocfs2_src/alloc.c:2646-2799 | one rotation to the left keeps them too, and moves the empty slot to the right or uses it up in the last leaf |
| ExtentLeaves.RotateLeftDrops | coverage/ocfs2_src/alloc.c:2646-2799 | when the last leaf has at most one record, rotating deletes it and keeps the record sequence and the leaf chain |
| ExtentLeaves.AtOfLeaf | coverage/ocfs2_src/alloc.c:766-788 | the leaf whose range has a cluster maps it as the whole tree does |
| ExtentPatch.InsertSortedUpdates | coverage/ocfs2_src/alloc.c:1615-1692 | inserting a record that overlaps none is a point update of the mapping and keeps the order |
| ExtentPatch.SplitAtUpdates | coverage/ocfs2_src/alloc.c:4076-4152 | a left or right split is a point update and keeps the order |
| ExtentPatch.MergedRightUpdates | coverage/ocfs2_src/alloc.c:3347-3458 | giving the end of a record to the next one is a point update with the physical place and flags of the next |
| ExtentPatch.MergedLeftUpdates | coverage/ocfs2_src/alloc.c:3513-3657 | giving the start of a record to the one before is a point update with the place and flags of that one |
| ExtentPatch.ContigMeans | coverage/ocfs2_src/alloc.c:4355-4481 | what each kind of contiguousness says about offsets, places and flags of the neighbours |
| ExtentPatch.CutRemoves | coverage/ocfs2_src/alloc.c:5347-5509 | cutting an edge of a record, or all of it, unmaps exactly those clusters |
| ExtentTree.ExtentTree.FindIsAt | coverage/ocfs2_src/alloc.c:1931-1947 | for every valid tree of any depth the walk and search answer as a scan of all records would |
| ExtentTree.ExtentTree.FixEdge | coverage/ocfs2_src/alloc.c:2042-2110 | only the boundary in front of the leaf changes, to the first record of the leaf |
| ExtentTree.ExtentTree.RotateTreeRight | coverage/ocfs2_src/alloc.c:2367-2526 | the loop over leaves keeps the sequence of non-empty records and the exact ranges, and leaves room in the leaf that takes the record, or names its left neighbour when the record goes on the edge between them or splits one there |
| ExtentTree.ExtentTree.GrowTree | coverage/ocfs2_src/alloc.c:1529-1595 | by branch or by depth: room in the last leaf, all records as before |
| ExtentTree.ExtentTree.InsertContiguous | coverage/ocfs2_src/alloc.c:4162-4241 | a contiguous insert updates exactly the clusters of the record, unless it crosses into the range of the next leaf, which then does not find them |
| ExtentTree.ExtentTree.InsertAtTail | coverage/ocfs2_src/alloc.c:3991-4074 | an append with room updates exactly its clusters and the lengths on the path |
| ExtentTree.ExtentTree.InsertByRotation | coverage/ocfs2_src/alloc.c:4243-4353 | an insert in the middle, with the leaf split over at most two paths, updates exactly its clusters |
| ExtentTree.ExtentTree.InsertExtent | coverage/ocfs2_src/alloc.c:4706-4767 | from any valid tree and any record that overlaps none: the old mapping plus the new run and a valid tree, unless the insert overruns its leaf; then some of its clusters are not found again |
| ExtentTree.ExtentTree.ExactNeverOverruns | coverage/ocfs2_src/alloc.c:4576-4699 | while ranges are exact no insert overruns |
| ExtentTree.ExtentTree.RotateSubtreeLeft | coverage/ocfs2_src/alloc.c:2646-2799 | asks for a restart exactly when the right leaf begins empty too; deletes the right leaf exactly when it is the last and has at most one record; otherwise the left leaf ends without an empty slot |
| ExtentTree.ExtentTree.RotateLeftFrom | coverage/ocfs2_src/alloc.c:2904-3019 | one run of the loop up to the restart it asks for, with all records kept |
| ExtentTree.ExtentTree.RemoveRightmostPath | coverage/ocfs2_src/alloc.c:3021-3108 | only the rightmost leaf, which has no records, goes away; the last one leaves an empty root |
| ExtentTree.ExtentTree.RotateTreeLeft | coverage/ocfs2_src/alloc.c:3150-3259 | with its restarts terminates for any number of leaves that begin empty, keeps the record sequence, clears the slot of the starting leaf and adds no other |
| ExtentTree.ExtentTree.TruncateRec | coverage/ocfs2_src/alloc.c:5347-5509 | exactly the cut clusters are unmapped and the tree is valid; exact ranges stay so if and only if the cut is not a partial one on the left of the only record of the last leaf |
| ExtentTree.ExtentTree.SplitRotated | coverage/ocfs2_src/alloc.c:4076-4152 | the split after a rotation, in one leaf or across two, replaces the record by its two parts in order |
| ExtentTree.ExtentTree.SplitAndInsert | coverage/ocfs2_src/alloc.c:4908-5018 | left, right and middle splits, the last in two passes, are point updates |
| ExtentTree.ExtentTree.RemoveExtent | coverage/ocfs2_src/alloc.c:5511-5644 | any removal inside one record unmaps exactly its clusters and nothing when no record has its start; exact ranges stay so if and only if the cut was none of those |
| ExtentTree.ExtentTree.FigureMergeContig | coverage/ocfs2_src/alloc.c:4355-4481 | looking at up to two neighbouring leaves finds the contiguousness with the previous and next of all records |
| ExtentTree.ExtentTree.MergeRecRight | coverage/ocfs2_src/alloc.c:3347-3458 | within a leaf or into the next one, the record sequence changes by that merge alone |
| ExtentTree.ExtentTree.MergeRecLeft | coverage/ocfs2_src/alloc.c:3513-3657 | the same into the record before, also when that empties and removes the last leaf |
| ExtentTree.ExtentTree.TryToMerge | coverage/ocfs2_src/alloc.c:3659-3828 | left, right and both-sides merges are point updates and leave no empty slot behind |
| ExtentTree.ExtentTree.SplitExtent | coverage/ocfs2_src/alloc.c:5062-5141 | for any range inside a record: clusters in it get the new address and flags, all others keep theirs; a range that runs past the record is refused unchanged |
| ExtentTree.ExtentTree.ChangeExtentFlag | coverage/ocfs2_src/alloc.c:5155-5232 | -EROFS exactly when the start is a hole; refused exactly when flags are set or clear already or the range runs past the record; else a point update with the changed flags |
| ExtentTruncate.RemovedTotal | coverage/ocfs2_src/alloc.c:5697-5808 | the sum of record lengths falls by exactly the number of clusters unmapped |
| ExtentTruncate.CalcTruncPos | coverage/ocfs2_src/file.c:1701-1755 | what one pass removes is exactly the part of the record inside the rest of the range, and it is done exactly when the record ends before it |
| ExtentTruncate.FindRec | coverage/ocfs2_src/file.c:1677-1691 | the last record that starts before the position |
| ExtentTruncate.PunchHole | coverage/ocfs2_src/file.c:1757-1916 | from any valid tree: exactly the clusters of the range are unmapped, all others keep their mapping, and the walk ends although each removal may reshape the tree; ranges stay exact unless the end of the range cuts a lone last record |
| ExtentTruncate.CommitTruncate | coverage/ocfs2_src/alloc.c:7211-7380 | exactly the clusters below the new end keep their mapping, and the count of clusters left is right |
| ExtentTruncate.CutTree | coverage/ocfs2_src/alloc.c:5390-5450 | a tree of two leaves with exact ranges; after such a cut by TruncateRec they are not exact, and an insert that overlaps no record overruns |
| ExtentTruncate.OverrunTree | coverage/ocfs2_src/alloc.c:4706-4767 | InsertExtent of that record into that tree: the walk loses a cluster of it |
| TruncateLog.Log.Append | coverage/ocfs2_src/alloc.c:5843-5917 | appends, or extends the last record exactly when the run continues it; a full log refuses every run |
| TruncateLog.Log.ReplayOne | coverage/ocfs2_src/alloc.c:5919-5989 | one transaction: the last record leaves the log and its run is given back, unless it starts at 0 or the bitmap refuses it |
| TruncateLog.Log.Replay | coverage/ocfs2_src/alloc.c:5919-5989 | from the last record to the first; complete if and only if the bitmap takes every run that has a start, else up to the first it refuses, which is lost |
| TruncateLog.Log.Flush | coverage/ocfs2_src/alloc.c:5992-6068 | log plus freed keep every cluster as often as before if and only if every logged run has a start and the bitmap takes it |
| TruncateLog.Log.FreeRun | coverage/ocfs2_src/alloc.c:6487-6537 | logged if and only if there was room or the flush succeeds; then log plus freed gain exactly the run, else they gain nothing |
| TruncateLog.Log.CompleteRecovery | coverage/ocfs2_src/alloc.c:6251-6307 | log plus freed gain exactly the clusters of the other log through any number of flushes; when one fails, no more than those of the runs taken by then |
| TruncateLog.Adopt | coverage/ocfs2_src/alloc.c:6184-6307 | adopting a dead node's log keeps every cluster of the two logs and the freed set as often as before unless a flush fails, which needs a refusal by the bitmap |
| TruncateLog.EventKeeps | coverage/ocfs2_src/alloc.c:5843-6307 | every transaction of any node, and each step of a recovery, keeps the sum over all logs, the recovery's copy and the freed set, and no log over its capacity |
| TruncateLog.InExactlyOne | coverage/ocfs2_src/alloc.c:5843-6307 | over every run from empty logs with disjoint runs, at every transaction boundary: a cluster logged so far is in exactly one of the logs, the copy of a recovery and the freed set, once, any other in none, and each log is within capacity |
| TruncateLog.InOneLogOnly | coverage/ocfs2_src/alloc.c:5843-6307 | a cluster in two logs would be counted twice, so it is in one log only |
| TruncateLog.AppendedKeeps | coverage/ocfs2_src/alloc.c:5826-5917 | coalescing keeps the clusters of the log and never adds more than one record |
| TruncateLog.NoneDropped | coverage/ocfs2_src/alloc.c:5919-5989 | a replay drops nothing if and only if none of the non-empty runs starts at 0 |
| DirBlock.FitsHole | coverage/ocfs2_src/dir.c:1404-1423 | a well-formed record takes a new one exactly when its hole is as large |
| DirBlock.AddKeeps | coverage/ocfs2_src/dir.c:1632-1719 | an add keeps the tiling, keeps names distinct, and is one insert into the map from names to inodes |
| DirBlock.DeleteKeeps | coverage/ocfs2_src/dir.c:1125-1168 | a delete keeps the tiling, takes exactly that name out of the map, and leaves a hole an entry fits in |
| DirBlock.ExpandKeeps | coverage/ocfs2_src/dir.c:2712-2752 | growing the last record tiles the larger block and keeps the map; the largest hole is the old one or the grown one |
| DirBytes.DirBuffer.Search | coverage/ocfs2_src/dir.c:339-387 | finds the first record with the name exactly when there is one, at the offset where a walk meets it |
| DirBytes.DirBuffer.Delete | coverage/ocfs2_src/dir.c:1125-1168 | in the bytes of the block: found exactly when a walk meets the offset; the record goes to the one before or is marked free; deleting a live entry is one removal from the map, and the tiling is kept |
| DirBytes.DirBuffer.Add | coverage/ocfs2_src/dir.c:1579-1729 | in the bytes of the block: the entry goes to the first record with room; it is refused exactly when one with the name comes first; the scan leaves the block exactly when none has room; a successful add is one insert into the map, and the tiling is kept |
| DirBytes.AddedReads | coverage/ocfs2_src/dir.c:1684-1710 | the bytes written for an add read back as the shortened entry and the new one, and every byte outside the record is as before |
| DirBytes.ReadEncoded | coverage/ocfs2_src/dir.c:1697-1710 | an entry written at any place reads back there, inode, name and length |
| DirBlock.RunKeeps | coverage/ocfs2_src/dir.c:1125-1729 | after any run of adds and deletes the records tile the block, names are distinct, and the live map is that of the start with the inserts and removals of the run |
| DirBytes.DirBuffer.FindMaxRecLen | coverage/ocfs2_src/dir.c:1183-1209 | the largest hole, 0 when too small for any entry |
| DirBytes.DirBuffer.FromInline | coverage/ocfs2_src/dir.c:2712-2752 | the new block holds the records of the inline directory with the last one grown to the end |
| DirIndex.FindLeafSplit | coverage/ocfs2_src/dir.c:3536-3614 | refused if and only if all entries have the major hash to insert; else a hash above the cluster's own at or below which some entry or the new one will move; its BUG_ON cannot fire |
| DirIndex.TransferPlaced | coverage/ocfs2_src/dir.c:3625-3666 | after a rebalance every entry is in the cluster with the largest number not above its major hash and in the block its minor hash chooses |
| DirIndex.TransferCount | coverage/ocfs2_src/dir.c:3625-3666 | and no entry is lost or doubled |
| DirIndex.ExpandPlaced | coverage/ocfs2_src/dir.c:3998-4112 | the same for the move of all entries from the root to a first cluster |
| DirIndex.InHome | coverage/ocfs2_src/dir.c:842-887 | an entry that is anywhere in the index is in the one list the lookup gives for its hash |
| DirIndex.LookupFinds | coverage/ocfs2_src/dir.c:763-824 | the last record of the leaf not behind the hash exists and is the last such record of the whole tree |
| DirIndex.DxIndex.Lookup | coverage/ocfs2_src/dir.c:842-887 | the cluster with the largest number not above the major hash, also inside and behind multi-cluster records |
| DirIndex.DxIndex.Insert | coverage/ocfs2_src/dir.c:1485-1518 | one entry more, in its place; no other count or list changes |
| DirIndex.DxIndex.Remove | coverage/ocfs2_src/dir.c:1211-1227 | one entry less; no other count changes |
| DirIndex.DxIndex.Rebalance | coverage/ocfs2_src/dir.c:3682-3875 | every entry occurs as often as before, in its place; refused only when the block is not full or all its entries have the hash to insert |
| DirIndex.DxIndex.ExpandInline | coverage/ocfs2_src/dir.c:3998-4112 | every entry occurs as often as before |
| DirIndex.DxIndex.FindSpace | coverage/ocfs2_src/dir.c:3877-3948 | a place with room that is the right one for the hash, or a refusal, with every entry as before |
| IndexedDir.FreeListOnce | coverage/ocfs2_src/dir.c:3950-3996 | the links determine the list: there is only one acyclic chain from the head |
| IndexedDir.FreePushed | coverage/ocfs2_src/dir.c:151-175 | a block put in front keeps the list acyclic and exactly the blocks with free length not 0 |
| IndexedDir.FreeUnlinked | coverage/ocfs2_src/dir.c:1520-1545 | so does taking out any block through its predecessor or the head |
| IndexedDir.RoomForName | coverage/ocfs2_src/dir.c:1579-1729 | a block whose recorded free length is enough takes the name: the add scan never runs past the block |
| IndexedDir.IndexBlock | coverage/ocfs2_src/dir.c:2582-2667 | indexing a block of entries gives exactly one index entry for each live record |
| IndexedDir.Directory.Search | coverage/ocfs2_src/dir.c:889-1001 | the indexed search finds a name exactly when a scan of all blocks would |
| IndexedDir.Directory.SearchFreeList | coverage/ocfs2_src/dir.c:3950-3996 | the first block on the list with room, all those before it having too little, and the one before it; none exactly when no block of the directory has it recorded |
| IndexedDir.Directory.PrepareForInsert | coverage/ocfs2_src/dir.c:4129-4223 | keeps the directory valid and its names as they were, through root expansion, rebalance and a new block; what it returns is what the add needs |
| IndexedDir.Directory.RecalcFreeList | coverage/ocfs2_src/dir.c:1551-1571 | the block stays on the list or leaves it by its new largest hole, and the list stays right |
| IndexedDir.Directory.AddEntry | coverage/ocfs2_src/dir.c:1579-1729 | one name more and nothing else; index, tiling and free list stay in agreement |
| IndexedDir.Directory.Delete | coverage/ocfs2_src/dir.c:1229-1343 | one name less and nothing else; index, tiling and free list stay in agreement; the block is on the list with its largest hole recorded, at the front if it was not on it |
| IndexedDir.Directory.ExtendDir | coverage/ocfs2_src/dir.c:3255-3320 | a new block in front of the list, all names as before |
| IndexedDir.Directory.constructor | coverage/ocfs2_src/dir.c:2505-2558 | a new directory has exactly its own and its parent's entries, indexed, and a recorded free length within its hole |
| IndexedDir.Directory.FromInline | coverage/ocfs2_src/dir.c:2762-3076 | expanding an inline directory loses and changes no name and indexes every one, in the root or in a first cluster |
| IndexedBytes.ByteDirectory.Search | coverage/ocfs2_src/dir.c:889-1001 | with the blocks in their bytes: the indexed search ends at the offset of the record, exactly when the name is there |
| IndexedBytes.ByteDirectory.AddEntry | coverage/ocfs2_src/dir.c:1579-1729 | the bytes written into the prepared block are the change that index, names and free list go by; one name more, and the scan never leaves the block |
| IndexedBytes.ByteDirectory.Delete | coverage/ocfs2_src/dir.c:1229-1343 | the record deleted in the bytes is the one that leaves index and names |
| IndexedBytes.ByteDirectory.PrepareForInsert | coverage/ocfs2_src/dir.c:4129-4223 | names and bytes agree also when the insert takes a new block |
| ExtentMap.ContainedMeets | coverage/ocfs2_src/extent_map.c:135-155 | the containment tests in both directions hold exactly when the two extents share a cluster |
| ExtentMap.MergedIsInside | coverage/ocfs2_src/extent_map.c:170-203 | merging or replacing keeps a cached item inside the file's map and covers the new extent |
| ExtentMap.InsertedInside | coverage/ocfs2_src/extent_map.c:213-272 | after an insert every item is inside the map, the limit is kept, and the item in front answers for the new extent |
| ExtentMap.BelowInside | coverage/ocfs2_src/extent_map.c:100-130 | after a truncate the items are inside every map that agrees below the cut, and end there |
| ExtentMap.ExtentCache.Lookup | coverage/ocfs2_src/extent_map.c:48-95 | hits exactly when some item has the cluster; the first such item answers and moves to the front, the others keep their order |
| ExtentMap.ExtentCache.LookupSound | coverage/ocfs2_src/extent_map.c:69-95 | a hit gives the true physical cluster and flags for every cluster it claims |
| ExtentMap.ExtentCache.Trunc | coverage/ocfs2_src/extent_map.c:100-130 | the loop leaves what lies below the cut, and the count is the length of the list |
| ExtentMap.ExtentCache.Insert | coverage/ocfs2_src/extent_map.c:213-272 | merge with the first item that takes it, else a new item, else in place of the last; count and limit kept |
| ExtentMap.HoleReaches | coverage/ocfs2_src/extent_map.c:343-394 | a hole ends exactly at the next record |
| ExtentMap.FigureHole | coverage/ocfs2_src/extent_map.c:343-394 | the hole length over all leaves, although only one neighbour is looked at |
| ExtentMap.GetClustersNocache | coverage/ocfs2_src/extent_map.c:396-513 | the record and the hole length are those of the whole tree, and last is said exactly of the last record |
| ExtentMap.FileMap.GetClusters | coverage/ocfs2_src/extent_map.c:595-652 | from the cache or from the tree, what is answered for each cluster is what the tree has, and the cache stays sound |
| ExtentMap.FileMap.AddExtent | coverage/ocfs2_src/alloc.c:4706-4767 | the new record goes into the cache as well: unless the insert overruns its leaf all items stay right and the record is answered from the front |
| ExtentMap.FileMap.ChangeFlags | coverage/ocfs2_src/alloc.c:5243-5276 | a change of flags keeps tree and cache in agreement |
| ExtentMap.FileMap.Remove | coverage/ocfs2_src/alloc.c:5511-5644 | so does a removal |
| ExtentMap.FileMap.Truncate | coverage/ocfs2_src/alloc.c:7211-7380 | and a tail truncation |
| ExtentMap.SeekDataHole | coverage/ocfs2_src/extent_map.c:862-954 | SEEK_DATA: the least offset from the start on in written data below the file size, or -ENXIO exactly when there is none; SEEK_HOLE: the least one in a hole or unwritten extent, or the end of file |

## Left out

- Journal handles, credits, buffer references, disk reads and checks of blocks read from disk: every access succeeds and every transaction is atomic.
- Node death and DLM recovery, memory allocation failure, signals, the flock path, and lock creation for new inodes, which attaches without a request from this node's lockers.
- The order in which the downconvert thread is woken; and what becomes of the memory of a lock after `ocfs2_lock_res_free()`, whose checks are modelled, when the thread still has the lock in hand.
- InodeCoherence.CachedIsCurrent: that a node learns of a deletion before it drops its locks and that an inode is reused only when every other node has learned of it is assumed, as the driver does in its check for stale inodes; locks without caching are not modelled.
- ExtentTree.ExtentTree.InsertExtent: record lengths are unbounded, so the 16 bits of a leaf length are not modelled; physical runs are taken never to merge past them.
- ExtentTree.ExtentTree.ChangeExtentFlag: the record of the physical block number is not checked for 0, and the feature bit test of the callers is not modelled.
- The extent tree is valid on entry, so the branches for corrupted blocks and for empty extents left by an operation that failed halfway are not modelled; each operation is shown to leave none.
- Tree nodes hold their children rather than block numbers; of the block numbers only the chain of leaves and the last block are modelled, and reading the next leaf by number is taking the next in the row.
- Refcount trees, reflinks, xattr values and reuse of metadata blocks; a removal of refcounted clusters is modelled up to the tree update.
- ExtentTruncate.PunchHole: zeroing of partial clusters and the page cache are not modelled, and the range is given in clusters.
- The estimate of truncated clusters and the timing of truncate log flushes.
- Directories without an index, readdir, and removal of the index; the entry count in the index root and its limit.
- IndexedDir.Directory.AddEntry: the caller has looked the name up and not found it, as the callers in the driver do.
- DirIndex.DxIndex.FindSpace: that one rebalance makes room is not claimed; the driver allows -ENOSPC after it.
- ExtentMap.FileMap.GetClusters: the translation from clusters to blocks is not modelled.
- The error counters of the block checks.
