# Verified models of QEMU cores

Dafny models of nine parts of QEMU, with proofs of what each part is for.  `dafny verify dfyconfig.toml`
checks everything.  Nothing here executes QEMU, and nothing was executed: the statements are theorems about the models.

Numbers are unbounded integers.  Where the C code depends on a width (64-bit addresses that wrap, 32-bit products in the
kdump header, 16-bit decrementers) the model writes the wrap or the limit out.  `x >> bits` for a page size is written
`Page(x, size)`, `x & ~mask` is `Offset(x, size)` (`Arith.PageIsDiv` ties them to division), and `pfn << bits` is
`Addr(pfn, size)`.

## What is modelled

* **Physical memory dispatch** (`qemu/exec.c`) - `PhysTree`, `PhysMap`, `FlatView`, `Dispatch`.  The node array with its
  reservations, recursive range insertion, in-place compaction, subpages, sections and the most recently used section.
  Main results: whatever disjoint list of ranges a dispatch is filled from, for every target page size from 1 KiB to
  64 KiB, as long as 16 bits number the sections that the list takes, every later lookup and translation at every 64-bit
  address answers like that list, before and after compaction and whatever was looked up before; one insertion allocates
  at most `2 * P_L2_LEVELS - 1` nodes, and the assertions on nodes and subpages do not fail.  The assertion on the number
  of sections holds if and only if the list takes no more of them than a page has bytes (`FillDispatch`, with the
  concrete lists `TooManyRanges`).
* **RAM offsets and dirty bitmaps** (`qemu/exec.c`) - `RamList`.  Blocks never overlap and keep their alignment over all
  adds and frees, including where rounding up wraps to 0; the smallest sufficient gap is taken; every page in a
  block has its dirty bits, a new block starts dirty, and the bits of all other live pages survive.
* **Exclusive sections** (`qemu/cpus-common.c`) - `Exclusive`.  A state machine with one step per shared access, lock
  operation, wait and wakeup, for any number of threads and vCPUs.  Over every interleaving: mutual exclusion, exact
  counting, no lost wakeup, no deadlock.  The memory barriers are taken as what makes the interleaving order common to
  all threads; waits may also return without a signal.
* **Block jobs and transactions** (`qemu/blockjob.c`) - `BlockJobs`, `BlockJobTransactions`.  The transition and verb
  tables are preconditions of the operations that assert them.  `Run` performs any sequence of operations by drivers,
  block layer and monitor, with jobs joining on the way.  A failed or cancelled member makes all members abort.  The one exception to "all or none" is
  stated exactly: a prepare callback that fails in a member other than the finalizing job makes the finalizing job commit
  while all others abort (`DoFinalize`, with the concrete run `SplitTransaction`).  Every pause has an owner who takes it
  back, with one exception that is stated exactly too: an I/O error that stops a job which its user had paused already
  (`ErrorStop`, with the concrete run `PauseWithoutOwner`).
* **Permissions in the block graph** (`qemu/block.c`) - `BlockPerm`, `BlockPaths`, `BlockGraphs`, `BlockDiamonds`.  The recursive check and the
  recursive update over any acyclic graph; a ghost argument `h` gives nodes heights that witness acyclicity.  Every
  operation leaves the graph consistent, with WRITE_UNCHANGED shared by every edge and no writer of a read-only node.
  Where the changed edge reaches each node below by one path, the check accepts exactly the updates that leave the graph
  safe; with two paths it does not (`DiamondUnsafe`).  Removing a user does not fail where the nodes below are safe; it
  can fail after an update that was accepted over two paths, and QEMU then aborts (`RemovalAborts`).  `RemovalIff` says
  exactly when.
* **kdump files** (`qemu/dump.c`) - `Vmcore`, `GuestMemory`, `KdumpBitmap`, `KdumpPages`, `KdumpLayout`, `KdumpReader`,
  `Kdump`.  The writer with its bitmap buffer and its two data caches, the flattened record format, and a reader that
  works from the bytes of the file alone.  The reader gets guest memory back, page by page.  The layout is computed in
  32-bit arithmetic, so the regions of the file are apart if and only if the part before the page data ends below 4 GiB
  (`LayoutIff`), and under that condition the round trip is proved; a guest that reaches page number 2^34 makes the
  regions overlap (`HugeGuestOverlaps`).  Where guest memory takes at most 4 GiB of the file the condition is also
  necessary: otherwise not one page can be read (`NothingReads`).
* **ELF core files** (`qemu/dump.c`) - `ElfDump`.  Every program header names the place where the file has its memory.
* **GDB packets** (`qemu/gdbstub.c`) - `Gdb`.  The byte-at-a-time decoder on its buffers refines a function on values,
  about which round trips, rejection and bounds are proved (GDB Remote Serial Protocol, section "Overview").  A payload
  comes back through escaping, framing and decoding, on the buffers of both ends, if and only if it has at most 4095 bytes
  and its escaped text at most 4096 (`Transfer`, `RoundTripIff`).
* **Virtual clocks** (`qemu/cpus.c`) - `Clocks`.  Host time while running, ticks that never go back, and instruction
  accounting.

Where comments and code differ the model follows the code.  The comment at qemu/dump.c:1042-1048 asks for `last_pfn` and
`pfn` to be 0 for the first bit, while the code only needs `last_pfn <= pfn`.  The comment at qemu/block.c:2058-2060, that
taking a parent away cannot fail, holds under the condition of `RemovalIff` and fails in the run `RemovalAborts`.

## Model

| member | source | states |
|---|---|---|
| PhysMap.PhysPageMap.NodeReserve | qemu/exec.c:251-260 | afterwards the capacity has room for the requested nodes, so the array does not move while they are taken |
| PhysMap.PhysPageMap.NodeAlloc | qemu/exec.c:262-280 | hands out the next node, all entries empty, other nodes untouched; the two assertions are its preconditions and are proved at every call |
| PhysMap.PhysPageMap.SetLevel | qemu/exec.c:282-306 | on a range of unassigned pages: the walk gives the leaf on exactly the pages of the range below this entry and is unchanged elsewhere, nodes stay an unshared tree, index and nb advance to the end of the entry, and the nodes used are within the bound for partly covered entries |
| PhysMap.PhysPageMap.EnsureNode | qemu/exec.c:289-292 | an entry without a node gets a fresh, empty one, and the walk does not change |
| PhysMap.PhysPageMap.FillNode | qemu/exec.c:293-305 | the loop over the entries of one node sets exactly the range |
| PhysMap.PhysPageMap.SetSlot | qemu/exec.c:295-304 | one entry: a leaf where it is wholly covered and aligned, else one level down |
| PhysMap.PhysPageMap.Set | qemu/exec.c:308-316 | refines a page map, and uses at most 2 * P_L2_LEVELS - 1 of the 3 * P_L2_LEVELS reserved nodes |
| PhysMap.PhysPageMap.Compact | qemu/exec.c:321-369 | the compacted tree is well formed, writes only its own nodes, and its walk ends where it did wherever it ended on a section; where it ended on none it may end on a foreign leaf |
| PhysMap.PhysPageMap.Find | qemu/exec.c:389-403 | the loop ends on the leaf of the recursive walk, in trees with and without skipped levels |
| FlatView.FoundSection | qemu/exec.c:405-409 | the final test turns any leaf the walk may end on into the right answer, on mapped and on unmapped pages |
| FlatView.FlatLookupOwner | qemu/memory.c:749-773 | in a disjoint view the owner of a byte decides the answer, whatever its place in the list |
| FlatView.DisjointIsFree | qemu/memory.c:749-773 | the next range of a disjoint list covers no byte of those before it |
| FlatView.SubpageCreated | qemu/exec.c:1490-1498 | a fresh subpage on an unmapped page answers like the view |
| FlatView.SubpageFilled | qemu/exec.c:1502-1506 | registering a piece in the subpage of its page makes the tables answer like the view with the piece |
| FlatView.MultipageTables | qemu/exec.c:1509-1520 | registering whole free pages makes the tables answer like the view with the piece |
| FlatView.SectionsForBound | qemu/exec.c:1436-1453 | a view takes at most five section numbers per range, and the four fixed ones |
| Dispatch.EveryTarget | qemu/exec.c:181-184 | for page sizes of 10 to 16 bits six levels of nine bits cover all 64-bit addresses |
| Dispatch.AddressSpaceDispatch.constructor | qemu/exec.c:3304-3322 | a new dispatch answers like the empty view |
| Dispatch.AddressSpaceDispatch.PhysPageFind | qemu/exec.c:389-410 | the section of the page, or unassigned, at every 64-bit address, before and after compaction |
| Dispatch.AddressSpaceDispatch.LookupRegion | qemu/exec.c:419-436 | the answer of the flat view at every address, whatever was looked up before |
| Dispatch.AddressSpaceDispatch.TranslateInternal | qemu/exec.c:440-472 | the region and offset of the flat view; for RAM every byte of the clipped length belongs to the same region at consecutive offsets, and the length is not clipped to nothing |
| Dispatch.AddressSpaceDispatch.PhysPageSet | qemu/exec.c:308-316 | the page map gets exactly the range |
| Dispatch.AddressSpaceDispatch.SetTree | qemu/exec.c:308-316 | the tree of nodes walks like the page map with the range |
| Dispatch.AddressSpaceDispatch.SectionAdd | qemu/exec.c:1436-1453 | the new section gets the next number, and whether the assertion has held so far is recorded |
| Dispatch.AddressSpaceDispatch.SubpageInit | qemu/exec.c:3212-3229 | a page that has none gets a subpage, and the tables still answer like the view |
| Dispatch.AddressSpaceDispatch.SubpageRegister | qemu/exec.c:3192-3210 | bytes start to end get the section, others keep theirs; out of range changes nothing |
| Dispatch.AddressSpaceDispatch.SubpageOf | qemu/exec.c:1484-1501 | the assertion that the page is a subpage or unassigned holds, and afterwards the page has a subpage |
| Dispatch.AddressSpaceDispatch.PutInSubpage | qemu/exec.c:1502-1506 | the section is added and its bytes registered, so that the view grows by the piece |
| Dispatch.AddressSpaceDispatch.RegisterSubpage | qemu/exec.c:1478-1506 | the view grows by the piece; two section numbers for a new page, else one |
| Dispatch.AddressSpaceDispatch.RegisterMultipage | qemu/exec.c:1509-1520 | the view grows by the piece, and its pages are mapped to one new section |
| Dispatch.AddressSpaceDispatch.AddHead | qemu/exec.c:1524-1535 | registers exactly the bytes up to the first page boundary, or none if the section starts on one |
| Dispatch.AddressSpaceDispatch.AddPiece | qemu/exec.c:1536-1550 | each turn registers a non-empty piece of what remains, within the stated cost; the branch for an unaligned start is never taken |
| Dispatch.AddressSpaceDispatch.AddLast | qemu/exec.c:1541-1542 | what remains in the last page, within the stated cost |
| Dispatch.AddressSpaceDispatch.AddPages | qemu/exec.c:1546-1549 | the whole pages of what remains, within the stated cost |
| Dispatch.AddressSpaceDispatch.AddToDispatch | qemu/exec.c:1522-1551 | the view grows by the whole section, at the stated cost in section numbers |
| Dispatch.AddressSpaceDispatch.Compact | qemu/exec.c:371-376 | every lookup stays, and so does the view |
| Dispatch.FillDispatch | qemu/memory.c:749-773 | the compacted dispatch answers like any disjoint list of ranges it is filled from, as far as 16 bits number its sections; the assertion of phys_section_add holds at every call if and only if the list takes no more section numbers than a page has bytes |
| Dispatch.TooManyRanges | qemu/exec.c:1439-1443 | as many one-page ranges as a page has bytes make that assertion fail, for every page size below 64 KiB |
| RamList.RoundUpIs | qemu/exec.c:1866-1870 | ROUND_UP on 64 bits gives the next multiple; it gives 0 exactly for 0 and where the next multiple is past the end |
| RamList.GapIsFree | qemu/exec.c:1869-1888 | a block in the gap after another overlaps none, also where the candidate wrapped to 0 |
| RamList.ClosestBlock | qemu/exec.c:1872-1879 | the inner loop finds the closest block at or after the candidate |
| RamList.FindRamOffset | qemu/exec.c:1852-1902 | aligned free room in the smallest sufficient gap after a block; fails exactly if no gap is large enough |
| RamList.RamSpace.LastRamPage | qemu/exec.c:1904-1915 | the page after the last byte of any block |
| RamList.RamSpace.LiveCovered | qemu/exec.c:2081-2119 | every live page has a bit in every client's bitmap |
| RamList.RamSpace.SetDirtyFlag | qemu/include/exec/ram_addr.h:230-249 | the index is in range for every live page, and one bit changes |
| RamList.RamSpace.SetDirtyRange | qemu/include/exec/ram_addr.h:251-298 | sets the bits of exactly the pages in the range, for all clients, across blocks of the bitmaps |
| RamList.RamSpace.DirtyMemoryExtend | qemu/exec.c:2081-2119 | enough blocks for the new size, bits below the old size kept, for all three clients |
| RamList.RamSpace.ExtendFor | qemu/exec.c:2162-2166 | the bitmaps come to cover the old pages and the new block, and keep the bits of the old pages |
| RamList.RamSpace.InsertBlock | qemu/exec.c:2168-2183 | the block joins the list, biggest first, and the invariant holds |
| RamList.RamSpace.PlaceBlock | qemu/exec.c:2162-2193 | the block joins, its pages in use are dirty, and all other live pages keep their bits |
| RamList.RamSpace.Place | qemu/exec.c:2168-2183 | the place is after all blocks at least as big and before all smaller ones |
| RamList.RamSpace.RamBlockAdd | qemu/exec.c:2121-2193 | succeeds exactly if there is host memory and a gap; keeps disjointness, alignment, list order and coverage; the pages in use of the new block are dirty for all clients and every page that was in a block keeps its bits; on failure nothing changes |
| RamList.RamSpace.RamFree | qemu/exec.c:2514-2536 | removes that block and keeps the invariant; the bitmaps stay |
| Exclusive.StepInv | qemu/cpus-common.c:171-297 | every step of every thread keeps the invariant of the protocol |
| Exclusive.RunInv | qemu/cpus-common.c:171-297 | the invariant holds at the end of every run |
| Exclusive.SignalInv | qemu/cpus-common.c:286-296 | waking a sleeper keeps the invariant |
| Exclusive.MutualExclusion | qemu/cpus-common.c:178-297 | in every run, while a thread is exclusive no vCPU executes and no other thread is exclusive |
| Exclusive.ExactCounting | qemu/cpus-common.c:189-202 | in every run, once the scan ends pending_cpus is 1 plus the vCPUs with has_waiter and the one about to decrement, and each vCPU has discounted itself as often as it was counted, less one while it is still to leave |
| Exclusive.NoLostWakeup | qemu/cpus-common.c:203-205 | in every run, a starter asleep has a vCPU that is still to leave, to decrement or to signal |
| Exclusive.NoDeadlock | qemu/cpus-common.c:171-297 | in every run, when nothing moves by itself the lock is free and every sleeper waits for a thread that executes or is exclusive |
| BlockJobs.BlockJob.StateTransition | qemu/blockjob.c:46-82 | the table is its precondition, proved at every call; NULL is reached from CREATED or CONCLUDED only |
| BlockJobs.BlockJob.constructor | qemu/blockjob.c:937-949 | a new job is created, valid, and paused once, by its creation; no pause is without an owner |
| BlockJobs.BlockJob.Start | qemu/blockjob.c:382-392 | running, with the pause of its creation taken back and all others kept |
| BlockJobs.BlockJob.DrainedBegin | qemu/blockjob.c:303-307 | one more pause, owned by a drained section |
| BlockJobs.BlockJob.ResumeOne | qemu/blockjob.c:217-225 | the assertion holds at every call; the last pause to go wakes the job, others change nothing else |
| BlockJobs.BlockJob.DrainedEnd | qemu/blockjob.c:309-313 | takes back the pause of one drained section; the last pause to go wakes the job |
| BlockJobs.BlockJob.Enter | qemu/blockjob.c:1099-1129 | wakes a started job; one that yielded at a pause point goes back to the status it had there, others keep theirs |
| BlockJobs.BlockJob.PausePoint | qemu/blockjob.c:1050-1079 | yields exactly if paused and not cancelled, in the status that Enter undoes |
| BlockJobs.BlockJob.ErrorStop | qemu/blockjob.c:1193-1229 | an I/O error comes with a user pause; it leaves a pause without an owner if and only if the user had paused the job before |
| BlockJobs.PauseWithoutOwner | qemu/blockjob.c:725-756 | a job whose user pauses it, which then fails, and which the user resumes, stays paused by nobody |
| BlockJobs.BlockJob.UserPause | qemu/blockjob.c:725-736 | adds one pause; refused exactly by the verb table or when the user has paused already |
| BlockJobs.BlockJob.UserResume | qemu/blockjob.c:743-756 | takes the pause of the user back and resets the I/O status; what is left are the pauses of drained sections and those without an owner, and without any the job wakes |
| BlockJobs.BlockJob.IostatusReset | qemu/blockjob.c:1168-1175 | the assertion is its precondition, proved at every call |
| BlockJobs.BlockJob.CancelAsync | qemu/blockjob.c:496-509 | cancelled, no user pause, I/O status reset, other pauses kept |
| BlockJobs.BlockJob.UpdateRc | qemu/blockjob.c:419-427 | a cancelled job without an error gets ECANCELED, and a job with an error aborts |
| BlockJobs.BlockJob.CompletedJob | qemu/blockjob.c:1010-1023 | a completed job waits or aborts; a cancelled one never waits |
| BlockJobs.BlockJob.FinishSync | qemu/blockjob.c:533-564 | a cancelled started job ends with an error |
| BlockJobs.BlockJob.Prepare | qemu/blockjob.c:429-435 | calls the driver at most once and keeps its result |
| BlockJobs.BlockJob.Commit | qemu/blockjob.c:437-443 | the assertion that there is no error is its precondition, proved at the call |
| BlockJobs.BlockJob.Abort | qemu/blockjob.c:445-451 | the assertion that there is an error is its precondition, proved at the call |
| BlockJobs.BlockJob.Unref | qemu/blockjob.c:236-254 | the assertions on the last reference are its precondition, proved at the call |
| BlockJobs.BlockJob.FinalizeSingle | qemu/blockjob.c:460-494 | commit or abort by the result, then clean, each once, then concluded or dismissed |
| BlockJobs.BlockJob.Conclude | qemu/blockjob.c:411-417 | concluded, or gone if dismissed automatically |
| BlockJobs.BlockJob.Decommission | qemu/blockjob.c:394-404 | out of its transaction and NULL, with no reference left |
| BlockJobs.BlockJob.DismissJob | qemu/blockjob.c:712-723 | accepted exactly in CONCLUDED |
| BlockJobTransactions.BlockJobTxn.AddJob | qemu/blockjob.c:190-201 | the job joins the open transaction |
| BlockJobTransactions.BlockJobTxn.CancelOthers | qemu/blockjob.c:587-594 | every other member is cancelled and the given one is left as it is |
| BlockJobTransactions.BlockJobTxn.FinishJob | qemu/blockjob.c:598-602 | a doomed job completes if it has not, and runs abort or commit, and clean |
| BlockJobTransactions.BlockJobTxn.FinalizeAll | qemu/blockjob.c:595-604 | the list is emptied; every member has completed and run abort or commit, and clean |
| BlockJobTransactions.BlockJobTxn.CompletedTxnAbort | qemu/blockjob.c:566-607 | every member but the given one aborts and cleans once; that one too if it failed or was cancelled |
| BlockJobTransactions.BlockJobTxn.PrepareAll | qemu/blockjob.c:511-531 | stops at the first failing prepare; members before it are prepared, those after it are not |
| BlockJobTransactions.BlockJobTxn.CommitAll | qemu/blockjob.c:620-626 | every member commits and cleans once |
| BlockJobTransactions.BlockJobTxn.PendAll | qemu/blockjob.c:646 | every waiting member becomes pending |
| BlockJobTransactions.BlockJobTxn.NeedsFinalize | qemu/blockjob.c:609-612 | true exactly if some member wants to be finalized manually |
| BlockJobTransactions.BlockJobTxn.AllCompleted | qemu/blockjob.c:639-644 | true exactly if every member has completed |
| BlockJobTransactions.BlockJobTxn.DoFinalize | qemu/blockjob.c:614-626 | all commit if every prepare succeeds; all abort if the first failure is the finalizer's own; otherwise the finalizer alone commits |
| BlockJobTransactions.BlockJobTxn.CompletedTxnSuccess | qemu/blockjob.c:628-652 | waits for members that run, then makes all pending, and finalizes if no member wants that done manually |
| BlockJobTransactions.BlockJobTxn.Completed | qemu/blockjob.c:1010-1023 | an error or a cancellation makes all members abort; a success waits, makes all pending or finalizes, whether or not other members were started |
| BlockJobTransactions.BlockJobTxn.Fail | qemu/blockjob.c:1010-1023 | the branch with an error |
| BlockJobTransactions.BlockJobTxn.Succeed | qemu/blockjob.c:1010-1023 | the branch without one |
| BlockJobTransactions.BlockJobTxn.PendOrFinalize | qemu/blockjob.c:646-651 | once all have completed they become pending, and are finalized if no member wants that done manually |
| BlockJobTransactions.BlockJobTxn.CancelJob | qemu/blockjob.c:758-772 | dismisses a concluded job, aborts all members if the job is not running any more, else marks it; no pause loses its owner |
| BlockJobTransactions.BlockJobTxn.UserCancel | qemu/blockjob.c:774-780 | accepted exactly by the verb table; refused it changes nothing |
| BlockJobTransactions.BlockJobTxn.FinalizeJob | qemu/blockjob.c:703-710 | accepted exactly in PENDING; every member then commits or aborts as the first failing prepare decides; refused it changes nothing |
| BlockJobTransactions.BlockJobTxn.DismissJob | qemu/blockjob.c:712-723 | accepted exactly in CONCLUDED; the outcome and all other members stay |
| BlockJobTransactions.BlockJobTxn.WithdrawJob | qemu/blockjob.c:1004-1008 | a job that fails early leaves without callbacks, the transaction stays open and the others untouched; some completion will still take them to finalization if and only if another has not completed or none is left |
| BlockJobTransactions.BlockJobTxn.Unlink | qemu/blockjob.c:203-210 | the list without that job |
| BlockJobTransactions.BlockJobTxn.Perform | qemu/blockjob.c:382-1276 | any one operation on any member keeps the invariant, the outcome of an ended transaction and its failure; exactly an I/O error on a job that its user had paused leaves it a pause without an owner; only an early failure can leave the members without a completion to wait for |
| BlockJobTransactions.BlockJobTxn.CreateJob | qemu/blockjob.c:190-201 | a new job joins exactly while the transaction has not ended and does not wait for its end |
| BlockJobTransactions.BlockJobTxn.Happen | qemu/blockjob.c:190-1276 | one event, a new job or an operation, keeps all that |
| BlockJobTransactions.BlockJobTxn.Run | qemu/blockjob.c:190-1276 | over every sequence of events, with jobs joining on the way, no assertion fails, every pause is owned or counted as unowned, the outcome of an ended transaction stays, and a transaction with a failed or cancelled member can only abort; without I/O errors no pause loses its owner, and without early failures no members wait for ever |
| BlockJobTransactions.SplitTransaction | qemu/blockjob.c:614-626 | a run that ends with one member committed and the other aborted |
| BlockPerm.ChildPermMonotone | qemu/block.c:1924-1994 | the default functions pass on less when asked for less |
| BlockPerm.ChildPermStable | qemu/block.c:1924-1994 | a new edge gets what the same function gives it when it is there |
| BlockPerm.ChildPerm | qemu/block.c:1631-1646 | whatever shares WRITE_UNCHANGED passes that on |
| BlockPerm.LooseUpdate | qemu/block.c:1823-1868 | loosening an edge passes the check in any acyclic graph whose nodes from there on down are safe |
| BlockPerm.UpdateIff | qemu/block.c:1657-1704 | where each node below is reached by one path the check accepts exactly the updates that leave the nodes below safe |
| BlockPaths.PathsIff | qemu/block.c:1657-1704 | in any acyclic graph the recursive check accepts a use exactly if, on every path down, the use carried along the path is tolerated by the other edges as they are and writes only to writable nodes |
| BlockPaths.LooseIff | qemu/block.c:1657-1704 | a loosening passes exactly if, along every path, it ends the clashes that the last edge has now |
| BlockPaths.CarriedMore | qemu/block.c:1688-1698 | one more edge on a path passes on what the path carries |
| BlockGraphs.EdgeTolerant | qemu/block.c:1833 | every edge shares WRITE_UNCHANGED if those of outside users do |
| BlockGraphs.PermSource | qemu/block.c:1731-1776 | a permission that an edge has after an update it had before, or a path brings it |
| BlockGraphs.WritersKept | qemu/block.c:1665-1672 | an accepted update leaves no writer of a node that is not writable, in any acyclic graph, with one path or many |
| BlockGraphs.ThinnedSafe | qemu/block.c:2057-2064 | taking edges away makes no node unsafe, in any acyclic graph |
| BlockGraphs.RemovalChecks | qemu/block.c:2057-2064 | the check after removing a user does not fail where the nodes below are safe |
| BlockGraphs.RemovalIff | qemu/block.c:2057-2064 | in every graph that the operations can leave, that check passes if and only if, along every path down, the last edge as the removal loosens it no longer clashes with the edges it clashes with now |
| BlockGraphs.TrySetIff | qemu/block.c:1902-1916 | the check for an outside edge holds exactly if the resulting graph is safe |
| BlockGraphs.AttachIff | qemu/block.c:2072-2101 | the same for a new outside edge |
| BlockGraphs.BlockGraph.SetPerm | qemu/block.c:1731-1760 | in any acyclic graph every node not still being set ends consistent with all its users, and only edges from below change |
| BlockGraphs.BlockGraph.ChildSetPerm | qemu/block.c:1885-1895 | the edge gets its use and everything below follows |
| BlockGraphs.BlockGraph.TrySetPerm | qemu/block.c:1902-1916 | failure changes nothing; success leaves a consistent graph without writers of read-only nodes, safe on one path |
| BlockGraphs.BlockGraph.RootAttachChild | qemu/block.c:2072-2101 | failure changes nothing; success adds the edge and leaves a consistent graph without writers of read-only nodes, safe on one path |
| BlockGraphs.BlockGraph.AttachChild | qemu/block.c:2103-2127 | accepted exactly if the check accepts what the parent passes on; failure changes nothing; success leaves a consistent graph, safe on one path |
| BlockGraphs.BlockGraph.DetachChild | qemu/block.c:2050-2070 | goes through exactly if that check passes, and always where the nodes below are safe; then no node becomes unsafe, and a safe graph stays safe; otherwise the code aborts |
| BlockDiamonds.DiamondUnsafe | qemu/block.c:1657-1704 | a run of attachments to an empty graph and one accepted change of an outside edge that leaves two paths to one node clashing |
| BlockDiamonds.RemovalAborts | qemu/block.c:2057-2064 | the same run, after which taking away an idle user fails the check that must not fail |
| BlockDiamonds.BuildDiamond | qemu/block.c:2072-2127 | idle users and children are always accepted and change no other edge |
| Vmcore.DataCache.WriteCache | qemu/dump.c:1230-1260 | the file and the buffer together hold everything sent, in order; a sync empties the buffer |
| Vmcore.DataCache.Flush | qemu/dump.c:1244-1252 | the buffer goes to the file at the offset of the cache, which moves on; what was sent in all stays |
| Vmcore.DataCache.constructor | qemu/dump.c:1220-1228 | an empty cache for the bytes from its offset on |
| Vmcore.File.WriteBuffer | qemu/dump.c:713-732 | the bytes are in the reassembled file at their offset, all other offsets as before |
| GuestMemory.GetNextPage | qemu/dump.c:1122-1166 | moves to the least page of guest memory above the one before, with its contents |
| GuestMemory.BelowMax | qemu/dump.c:1552-1558 | no page of guest memory is at or above max_mapnr |
| KdumpBitmap.SetDumpBitmap | qemu/dump.c:1049-1100 | both bitmaps and the buffer show exactly the bits set so far |
| KdumpBitmap.FlushBuffer | qemu/dump.c:1069-1088 | the buffer goes to both bitmaps and is cleared |
| KdumpBitmap.FlushLast | qemu/dump.c:1195-1207 | the last call writes out what the buffer still holds |
| KdumpBitmap.LenIs | qemu/dump.c:1776-1781 | the bitmap ends with the buffer that holds the bit of the last page |
| KdumpBitmap.WriteDumpBitmap | qemu/dump.c:1168-1218 | both bitmaps are complete in the file, and the dumpable pages are counted |
| KdumpPages.DecodeEncode | qemu/include/sysemu/dump.h:146-151 | a descriptor reads back from its 24 bytes in either byte order |
| KdumpPages.IsZeroPage | qemu/dump.c:1292-1295 | true exactly for a page of zeros |
| KdumpPages.Packed | qemu/dump.c:1372-1428 | what is stored is no longer than the page and stands for it; its flags say how |
| KdumpPages.WriteZeroPage | qemu/dump.c:1353-1361 | a page of zeros adds no data and gets the shared descriptor |
| KdumpPages.WriteOtherPage | qemu/dump.c:1362-1440 | any other page adds its data and gets a descriptor for that |
| KdumpPages.WritePage | qemu/dump.c:1351-1442 | the descriptor sent for a page locates data that stands for it; zero pages share the first data |
| KdumpPages.WriteDumpPages | qemu/dump.c:1297-1453 | the file has a descriptor for every page in order, and the data they locate, and nothing outside that region changes |
| KdumpLayout.LayoutRight | qemu/dump.c:913-1017 | below 4 GiB the computed offsets are those of the format |
| KdumpLayout.HeaderRight | qemu/dump.c:1011-1013 | the offset of the bitmaps is that of the format if header and notes end below 4 GiB |
| KdumpLayout.WrappedOffset | qemu/dump.c:1015-1017 | where the layout does not fit, the offset of the page data is too small by a multiple of 4 GiB, and on a page boundary |
| KdumpLayout.LayoutIff | qemu/dump.c:913-1017 | header, bitmaps and pages are apart exactly if the part before the page data ends below 4 GiB |
| KdumpLayout.HugeGuestOverlaps | qemu/dump.c:1011-1017 | a guest that reaches page 2^34 makes them overlap |
| Kdump.CreateHeader | qemu/dump.c:801-1023 | header, sub header and notes are in the file, and the offsets are the computed ones |
| Kdump.BitRankIs | qemu/dump.c:1168-1218 | the number of bits set before a page is the number of pages of guest memory before it |
| Kdump.DescReads | qemu/dump.c:1297-1453 | the k-th descriptor leads to the k-th page |
| Kdump.ReadAtIs | qemu/dump.c:1168-1453 | bitmap and descriptors lead to every page |
| Kdump.RoundTrip | qemu/dump.c:1466-1522 | if the regions are apart no writer touches what another wrote, both bitmaps are right, every page reads back, and every other page number reads as absent |
| Kdump.NothingReads | qemu/dump.c:1011-1017 | if they overlap and guest memory takes at most 4 GiB of the file, no page reads back |
| Kdump.LonePageLost | qemu/dump.c:1011-1017 | there are such guests: one page of memory at 64 TiB |
| Kdump.CreateKdumpVmcore | qemu/dump.c:1466-1522 | reading the file gives guest memory back for every page number, or says that the page is not there, if the part before the page data ends below 4 GiB; for guests whose memory takes at most 4 GiB of the file, only if |
| ElfDump.GetOffsetRange | qemu/dump.c:406-465 | a place exactly for memory that is dumped, after all that is written before it, clipped to its block |
| ElfDump.PlaceIsRight | qemu/dump.c:406-465 | the file has guest memory at that place, byte by byte |
| ElfDump.CalculateSize | qemu/dump.c:1576-1596 | the length of the filtered memory |
| ElfDump.ElfWriter.GetStartBlock | qemu/dump.c:1524-1550 | the first block in the range, and where to start in it |
| ElfDump.ElfWriter.GetNextBlock | qemu/dump.c:607-632 | the next block in the range, skipping only those out of it |
| ElfDump.ElfWriter.WriteMemory | qemu/dump.c:380-403 | page by page and remainder give the whole stretch |
| ElfDump.ElfWriter.WriteBlock | qemu/dump.c:641-652 | the filtered part of one block |
| ElfDump.ElfWriter.DumpIterate | qemu/dump.c:635-658 | the file gets the filtered memory of all blocks, in order |
| ElfDump.WriteElfLoads | qemu/dump.c:467-502 | one program header per mapping, up to the number that the header announces |
| ElfDump.DumpBegin | qemu/dump.c:505-605 | exactly memory_offset bytes before the memory |
| ElfDump.CreateVmcore | qemu/dump.c:660-671 | every program header locates its memory in the file, whose length is memory_offset plus dump_calculate_size |
| Gdb.GdbState.ReadByte | qemu/gdbstub.c:1585-1724 | refines the decoder function, in its buffers |
| Gdb.GdbState.ReadLineByte | qemu/gdbstub.c:1625-1686 | the states that collect a line, on the line buffer |
| Gdb.GdbState.ReadFrameByte | qemu/gdbstub.c:1615-1719 | the states around a line, with checksum and answer |
| Gdb.GdbState.PutPacketBinary | qemu/gdbstub.c:568-604 | sends the framed text and keeps it for retransmission |
| Gdb.MemToBuffer | qemu/gdbstub.c:615-633 | writes the escaped text |
| Gdb.MemToHex | qemu/gdbstub.c:511-522 | writes two digits per byte and a terminator |
| Gdb.HexToMem | qemu/gdbstub.c:524-532 | reads two digits per byte |
| Gdb.ToHex | qemu/gdbstub.c:502-508 | a hex digit that reads back as the number |
| Gdb.LineBounded | qemu/gdbstub.c:1637-1682 | over any stream the line index stays within the buffer |
| Gdb.OneAnswer | qemu/gdbstub.c:1698-1719 | one byte causes at most one answer, and hands a packet on exactly if that is an acknowledgement |
| Gdb.AckEach | qemu/gdbstub.c:1614-1719 | over any stream there are as many acknowledgements as packets handed on |
| Gdb.PacketAccepted | qemu/gdbstub.c:1614-1719 | any mix of characters, escapes and runs is accepted as its expansion |
| Gdb.PacketRejected | qemu/gdbstub.c:1707-1712 | any other checksum gets a NAK and no packet |
| Gdb.RoundTrip | qemu/gdbstub.c:1614-1719 | the decoder restores every payload of at most 4095 bytes from its escaped frame, with an ACK |
| Gdb.TooLong | qemu/gdbstub.c:1637-1654 | every longer payload is dropped, without an answer |
| Gdb.RoundTripIff | qemu/gdbstub.c:568-633 | a payload is sent and comes back if and only if it has at most 4095 bytes, the line of the decoder, and its escaped text at most 4096, the packet of the encoder |
| Gdb.Transfer | qemu/gdbstub.c:568-1724 | on the buffers of both ends: escaping, framing, sending, decoding byte by byte and the answer back; the payload is handed on exactly under that condition, and then the sender forgets the packet |
| Gdb.Send | qemu/gdbstub.c:568-633 | what goes out is the escaped frame, kept for retransmission, if it fits |
| Gdb.Receive | qemu/gdbstub.c:1585-1724 | the buffer code on a whole stream refines the decoder function |
| Gdb.DollarsDoNotFit | qemu/gdbstub.c:568-633 | 4095 dollar signs fit the line but their escaped text does not fit the packet |
| Gdb.ChunkFits | qemu/gdbstub.c:1387-1396 | the chunks in which a feature file is sent always fit |
| Gdb.NakRecovers | qemu/gdbstub.c:1590-1607 | a frame with a damaged checksum is refused, sent again, accepted, and then forgotten |
| Gdb.HexRoundTrip | qemu/gdbstub.c:490-532 | hex text reads back as the memory it was made from |
| Gdb.TextRoundTrip | qemu/gdbstub.c:490-532 | memory read from lower-case digits writes those digits |
| Clocks.VmClock.GetClock | qemu/cpus.c:337-363 | the total host time between calls during which the clock was on |
| Clocks.VmClock.EnableTicks | qemu/cpus.c:368-378 | starts counting now, once |
| Clocks.VmClock.DisableTicks | qemu/cpus.c:384-394 | stops counting now, once |
| Clocks.VmClock.GetTicks | qemu/cpus.c:313-335 | never less than any value returned before, whatever the host counter does |
| Clocks.RoundUp | qemu/cpus.c:455-458 | the rounded count takes at least the time, and less than one instruction more |
| Clocks.Icount.UpdateIcount | qemu/cpus.c:239-261 | qemu_icount is the number of executed instructions |
| Clocks.Icount.GetIcountRaw | qemu/cpus.c:263-280 | however often the vCPU reads, the number of executed instructions |
| Clocks.Icount.Prepare | qemu/cpus.c:1344-1400 | the budget covers the clipped deadline by less than one instruction too much, and the decrementer gets as much as its 16 bits hold |
| Clocks.Icount.Execute | qemu/accel/tcg/cpu-exec.c:656-684 | instructions come out of the decrementer |
| Clocks.Icount.Refill | qemu/accel/tcg/cpu-exec.c:668-676 | nothing of the budget is lost, and the decrementer gets as much as its 16 bits hold |
| Clocks.Icount.Process | qemu/cpus.c:1402-1417 | all executed instructions are accounted for and the counters are clear |
| Clocks.Icount.Adjust | qemu/cpus.c:402-438 | the rate falls by one step exactly if virtual time runs too far ahead, rises exactly if it falls too far behind, and virtual time does not move |
| Clocks.Icount.RunSlice | qemu/cpus.c:1344-1417 | executing the whole limit reaches the clipped deadline with overshoot below 2^shift |
| Clocks.Icount.Run | qemu/cpus.c:239-458 | over any sequence of steps the accounting invariant holds and virtual time never goes back |

## Left out

- Dispatch: IOMMU translation, ioeventfds and coalesced MMIO; the rendering of memory regions into a flat view, of which only the disjoint result is used.
- Dispatch.FillDispatch: lists that take more than 65536 section numbers, where the 16-bit numbers would wrap.
- Dispatch: RCU; readers see a finished dispatch.
- RamList: host memory allocation, Xen, resizing, notifiers, and the race of last_ram_page outside the lock.
- Exclusive: the work queue, CPU hotplug, kicks, and memory orders weaker than sequential consistency.
- Exclusive: fairness; NoDeadlock says who is waited for, not that it will move.
- BlockJobs: rate limiting, sleep timers, AioContext changes, QAPI events, and drivers that call back into the job layer from commit, abort or clean.
- BlockJobTransactions: other jobs that complete on their own during block_job_finish_sync, which for cancelled members comes to the same.
- BlockJobTransactions.BlockJobTxn.Completed: a failed or cancelled completion while another member has not been started is not modelled, because block_job_finish_sync then never returns.
- BlockJobTransactions.BlockJobTxn.CancelJob: the same for a cancellation that aborts the transaction.
- BlockJobTransactions.BlockJobTxn.UserCancel: the same.
- BlockJobTransactions.BlockJobTxn.CreateJob: a job that is added to a transaction which has ended or waits for its end.
- BlockPerm: drivers with their own bdrv_check_perm, bdrv_replace_node, reopen queues and changes of open flags; order of the child lists, which does not influence the result.
- BlockGraphs: reference counts, drained sections and AioContexts; each operation is given heights for the graph it works on.
- BlockGraphs.TrySetIff: one path only, because with two paths the statement is false (DiamondUnsafe).
- Kdump: failing writes, the contents of headers and notes other than the three sizes, and the text that starts and ends a flattened file.
- Kdump.CreateKdumpVmcore: where the regions overlap and guest memory takes more than 4 GiB of the file, which pages still read right depends on the contents of memory and is not stated.
- KdumpPages: the compression libraries, which are any function whose results its inverse undoes.
- ElfDump: contents of headers and notes, failing writes, and how the list of mappings is made.
- Gdb: gdb_handle_packet itself and user-mode emulation.
- Gdb.AckEach: the replies that gdb_handle_packet sends while it handles a packet are not part of the output that is counted.
- Gdb.Send: put_packet_binary itself does not test whether the packet fits; where it does not, the model sends nothing.
- Gdb: the checksum in the encoder is summed over unsigned bytes, which agrees with signed bytes in the eight bits that are sent; a checksum sum that overflows int is not modelled.
- Clocks: warp timers, record and replay, several vCPUs between prepare and process, and 64-bit overflow.
