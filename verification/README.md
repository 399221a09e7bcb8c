# Verification of the libmesosphere memory and IPC core

This project models the parts of the kernel library libmesosphere that carry its hardest guarantees, and proves those
guarantees in Dafny:

* **Memory blocks.** An address space is an ordered run of blocks that is split, changed and merged in place. The blocks
  are shown to be a compressed form of a plain page-by-page map, and every update to refine an update of that map
  (`MemoryBlock`, `BlockUpdates`, `BlockWalk`, `BlockManager`, `CanonicalBlocks`, `UpdateMeaning`). On top of it: the scans
  before an update (`StateChecks`), IPC locks over whole runs (`IpcLockRuns`), aliasing a range (`AliasMemory`,
  `Remapping`) and backing free memory (`FreeRanges`, `PhysicalMapping`).
* **IPC requests.** Whole pages of a buffer are shared, edge pages copied, and the edges brought back with the reply
  (`IpcBuffers`, `IpcMapping`, `IpcViews`). Meanwhile the client's pages are taken away from it in its page table and given
  back, with roll backs, and the permissions in the table stay what the memory blocks say, however requests overlap
  (`IpcProtection`, `IpcSetup`, `IpcServer`, `IpcCleanup`, `IpcRequests`), and over whole runs (`IpcRuns`).
* **Page heap and page groups.** A buddy allocator over several block sizes with a purely local merge rule, its runs, and
  the greedy group allocator over a pool of heaps (`BlockSizes`, `HeapLevels`, `PageHeap`, `HeapRuns`, `PageGroup`,
  `MemoryManager`).
* **Page tables above the hardware.** Tables are maps from virtual to physical pages, and walks over translation blocks of
  any size are sequences of entries (`PageTable`, `Traversal`, `PageRanges`). Region placement (`Regions`).
* **BLZ decompression in place** against a two-buffer decoder and an encoder (`Blz`, `BlzTokens`).
* **Scheduler update** (`ReadyQueues`, `PriorityQueue`, `SchedulerUpdate`, `Scheduler`) and **session lifecycle**
  (`Sessions`), the second as a state machine whose steps are the sections under the scheduler lock.

Code that changes state step by step is modelled by classes and methods with loops; each is proved against a function or a
set-level statement, about which the lemmas then speak. Addresses and sizes are in pages unless bytes matter. Integers are
unbounded; where a 16-bit counter could wrap, "no counter wraps" is a precondition (`RangeFits`) or is proved. `Basics`
holds what several modules share.

What is assumed of things outside the model:

* `Operate` changes a page map and may fail for want of page-table memory; a `budget` says how many more calls succeed. It
  cannot fail when it reuses a page list.
* The free area found for a mapping, the random draws, the pages allocated for edges and for `MapPhysicalMemory`, and what
  another thread did between two lock sections are parameters.
* Free pages are unmapped and carry no permission and no attribute (`FreeIsBare`), where a member says so.
* A runnable pinned thread is bound to the core it is pinned to (`PinsBound`).
* Reserving zero of a resource succeeds.
* An edge page of a buffer is mapped once in that buffer (`EdgesOnce`), where a member says so. The source of an alias is
  locked and may not be offered, shared memory has a state that may not be offered, transfer memory is mapped once at a
  time, and IPC mappings keep guard pages between them, so one buffer does not show a page twice. `DeliversIffEdgesOnce`
  says what depends on it.
* The client and the server of a request are two processes.

Where code and comments or expectations differ, the model follows the code:

* `CheckState` never looks at the lock counts of the first block when there are two or more (`CheckStateExact`).
* `KMemoryBlock::Initialize` leaves the IPC start counter as it was; the constructor takes it as `leftover`.
* `CoalesceForUpdate` steps back one block whenever the range does not begin with the space. `HasPredecessor` is exactly
  the condition under which that block exists (`ChangeRange`, `NothingBeforeRange`, `IdleUpdateHasNoPredecessor`).
* A BLZ match that is longer than its distance reads bytes that are not decoded yet (`MatchReadsDecodedOnly`).
* The roll back of `AllocatePageGroupImpl` frees only the first heap's part of a group block that spans two heaps
  (`RestoredIffNoSpan`, `TouchingHeapsLosePage`).
* `SetupForIpc` sets up its guard only after the blocks for the lock were allocated; if that allocation fails, the client's
  pages stay taken away (`IpcSetups.SetupForIpc`, `NoBlocksLeavesPageTaken`).
* Permissions are compared and restored under a mask without the bits for execution, so those may be lost while a page is
  locked (`Shows`, `CoherentSame`).
* `IsValidPageGroup` does not look at blocks after the range (`IsValidPageGroup`, `TrailingBlocksUnchecked`).
* The scheduler does not choose again for a core whose blocked front thread was migrated away
  (`BlockedCoreIsNotRevisited`; `BusyCores` and `IdleExactly` say exactly when a core is left idle).
* The abort checks of `InitializeForProcess` do not compare the stack with the kernel-map region; they are disjoint in a
  39-bit space all the same (`RegionsApart`).
* `RemapPageGroup` maps the rest of a memory block, not just the pages of the current group block, in each operation; on a
  map from pages to pages the following operations put that right (`RemapPageGroup`).
* `IsServerClosed` and `IsClientClosed` are both "not Normal".

## Model

| member | source | states |
|---|---|---|
| `MemoryBlocks.SplitPages` | libmesosphere/include/mesosphere/kern_k_memory_block.hpp:434-459 | `Split` keeps every page of the block, edge flags and counters included: the new left block and the remaining right block show the same pages |
| `MemoryBlocks.MergePages` | libmesosphere/include/mesosphere/kern_k_memory_block.hpp:395-415 | two blocks that `CanMergeWith` allows to be merged show, after `Add`, the same pages as before |
| `BlockManagers.UpdateAllocator.Allocate` | libmesosphere/include/mesosphere/kern_k_memory_block_manager.hpp:23-76 | hands out one of the at most two blocks held; the number held goes down by one |
| `BlockManagers.UpdateAllocator.Free` | libmesosphere/include/mesosphere/kern_k_memory_block_manager.hpp:23-76 | a freed block is kept or passed on to the slab, never lost |
| `BlockManagers.BlockManager.constructor` | libmesosphere/source/kern_k_memory_block_manager.cpp:89-105 | `Initialize` gives one free block over the whole space, a valid and coalesced state |
| `BlockManagers.BlockManager.FindIterator` | libmesosphere/source/kern_k_memory_block_manager.cpp:150-152 | finds the block that holds an address |
| `BlockManagers.BlockManager.CoalesceForUpdate` | libmesosphere/source/kern_k_memory_block_manager.cpp:150-176 | from a state whose mergeable neighbours all meet inside the range, the bounded walk leaves no mergeable neighbours anywhere, changes no page, and accounts for every block |
| `BlockManagers.BlockManager.UpdateRange` | libmesosphere/source/kern_k_memory_block_manager.cpp:178-335 | the common form of the three updates: the pages of the blocks become exactly the per-page result, the blocks stay tiled, consistent and coalesced, and the allocator is called exactly `BlocksNeeded` times; needs a block before the range |
| `BlockManagers.BlockManager.ChangeRange` | libmesosphere/source/kern_k_memory_block_manager.cpp:190-229 | the loop of an update, for every range: the per-page result, and a block lies before the range afterwards if and only if `HasPredecessor` held before |
| `BlockManagers.NothingBeforeRange` | libmesosphere/source/kern_k_memory_block_manager.cpp:150-154 | the step back of the coalescing walk stays in the run of blocks exactly then |
| `BlockManagers.IdleUpdateHasNoPredecessor` | libmesosphere/source/kern_k_memory_block_manager.cpp:178-232 | an input without one: a space of one free block, and an update of an inner page to what it already is |
| `BlockManagers.BlockManager.Update` | libmesosphere/source/kern_k_memory_block_manager.cpp:178-232 | `Update` refines the per-page map and keeps the invariant |
| `BlockManagers.BlockManager.UpdateIfMatch` | libmesosphere/source/kern_k_memory_block_manager.cpp:234-288 | `UpdateIfMatch` refines the per-page map and keeps the invariant |
| `BlockManagers.BlockManager.UpdateLock` | libmesosphere/source/kern_k_memory_block_manager.cpp:290-335 | `UpdateLock`, for each of the nine lock functions, refines the per-page map and keeps the invariant |
| `BlockManagers.BlockManager.CheckState` | libmesosphere/source/kern_k_memory_block_manager.cpp:338-390 | the executable check returns exactly `Checked` |
| `BlockManagers.CheckStateExact` | libmesosphere/source/kern_k_memory_block_manager.cpp:338-390 | `CheckState` holds if and only if the blocks are contiguous, coalesced, and every block but the first of several has counts that agree with its lock bits; so it tells the whole invariant exactly when the first block is the only one or has consistent counts itself |
| `BlockManagers.CheckStateMissesFirstBlock` | libmesosphere/source/kern_k_memory_block_manager.cpp:338-390 | with two or more blocks the counts of the first block are never looked at: a bad first block passes |
| `BlockManagers.InvariantPassesCheckState` | libmesosphere/source/kern_k_memory_block_manager.cpp:338-390 | the invariant kept by every update implies `CheckState` |
| `BlockUpdates.ApplyKeepsView` | libmesosphere/source/kern_k_memory_block_manager.cpp:223-229 | changing one block inside the range moves the per-page view on by exactly the pages of that block |
| `BlockUpdates.MergeKeepsView` | libmesosphere/source/kern_k_memory_block_manager.cpp:160-170 | one merge of the coalescing walk keeps the view and the well-formedness |
| `BlockWalks.Walk.SplitRight` | libmesosphere/source/kern_k_memory_block_manager.cpp:209-229 | splitting off what lies past the range, then changing the rest, finishes the range with one more block |
| `CanonicalBlocks.CanonicalForm` | libmesosphere/source/kern_k_memory_block_manager.cpp:338-390 | a coalesced run of blocks is determined by its pages: two such runs with the same view are equal |
| `CanonicalBlocks.BoundaryFromView` | libmesosphere/include/mesosphere/kern_k_memory_block.hpp:395-405 | in a coalesced run two blocks meet at a page exactly if the properties differ there or a flag forbids the merge |
| `UpdateMeanings.UpdateMeans` | libmesosphere/include/mesosphere/kern_k_memory_block.hpp:417-432 | after `Update` every page in range has the requested properties and keeps its lock and share history; no other page changes |
| `UpdateMeanings.UpdateIfMatchMeans` | libmesosphere/source/kern_k_memory_block_manager.cpp:234-288 | after `UpdateIfMatch` exactly the pages in range that had the test properties have the new ones |
| `UpdateMeanings.UpdateIdempotent` | libmesosphere/source/kern_k_memory_block_manager.cpp:178-288 | repeating an update changes nothing |
| `UpdateMeanings.HideRestores` | libmesosphere/source/kern_k_page_table_base.cpp:818-887 | pages put to use and then freed again, whatever happened elsewhere meanwhile, are as before if and only if they carried no permission, attribute or Normal flag; no other page changes |
| `IpcLockRuns.LockEndsAreBoundaries` | libmesosphere/include/mesosphere/kern_k_memory_block.hpp:576-629 | when the page counters tell the outstanding locks, both ends of every outstanding lock are block boundaries: a start flag or a count difference blocks the merge |
| `IpcLockRuns.NextTracks` | libmesosphere/source/kern_k_page_table_base.cpp:4034-4041 | every lock, unlock or other update keeps the page counters in line with the outstanding locks |
| `IpcLockRuns.RunTracks` | libmesosphere/source/kern_k_page_table_base.cpp:4034-4041 | so at every point of every run |
| `IpcLockRuns.ReleaseIsFreeInEveryRun` | libmesosphere/source/kern_k_page_table_base.cpp:4034-4041 | at every point of every run, releasing any outstanding lock needs no new block and wraps no counter |
| `IpcLockRuns.CleanupForIpcClient` | libmesosphere/source/kern_k_page_table_base.cpp:4034-4041 | the unlock with an allocator of zero blocks goes through for every outstanding lock, as a step of a run |
| `IpcLockRuns.SetupForIpc` | libmesosphere/source/kern_k_page_table_base.cpp:3810-3814 | the lock of the block manager is a step of a run |
| `IpcLockRuns.OtherUpdate` | libmesosphere/source/kern_k_memory_block_manager.cpp:178-335 | and so is every other update of the block manager |
| `IpcLockRuns.Execute` | libmesosphere/source/kern_k_page_table_base.cpp:3775-4047 | any sequence of locks, unlocks and other updates executed on a block manager: at every point the counters tell exactly the outstanding locks, whose ends are block boundaries |
| `IpcLockRuns.LockThenUnlock` | libmesosphere/include/mesosphere/kern_k_memory_block.hpp:576-629 | unlocking right after locking restores every page if and only if the start flag agreed with its counter at the start of the range |
| `IpcLockRuns.LockThenUnlockRestoresBlocks` | libmesosphere/include/mesosphere/kern_k_memory_block.hpp:576-629 | and then the blocks themselves are the same run as before |
| `StateChecks.CutEndsSuffice` | libmesosphere/source/kern_k_page_table_base.cpp:478-512 | the count of range ends that cut a block is enough for every update of that range, is exact for locks, and is never more than two |
| `StateChecks.CheckMemoryStateContiguous` | libmesosphere/source/kern_k_page_table_base.cpp:478-512 | succeeds if and only if every page of the range passes the test; the returned count is the number of cut ends |
| `StateChecks.CheckMemoryState` | libmesosphere/source/kern_k_page_table_base.cpp:514-566 | in addition one state, one permission and, but for ignored bits, one attribute throughout, which are returned |
| `BlockSizes.MemoryBlockPagesAreValid` | libmesosphere/include/mesosphere/kern_k_page_heap.hpp:24 | the seven block sizes increase and each divides the next |
| `HeapLevels.FreeRunIsCovered` | libmesosphere/include/mesosphere/kern_k_page_heap.hpp:87-116 | with no full sibling group and no overlap between levels, an aligned wholly free run lies inside one free block of its size or larger |
| `HeapLevels.PushWithMerge` | libmesosphere/include/mesosphere/kern_k_page_heap.hpp:87-103 | pushing a block that fills its group: the group disappears from its level, its pages are exactly those of one block of the next level, and both invariants stay |
| `PageHeaps.PageHeap.PushBlock` | libmesosphere/include/mesosphere/kern_k_page_heap.hpp:87-103 | sets the bit; a full group is cleared and handed on, anything else is kept |
| `PageHeaps.PageHeap.PopBlock` | libmesosphere/include/mesosphere/kern_k_page_heap.hpp:105-116 | takes one free block of a level, or says that there is none |
| `PageHeaps.PageHeap.FreeBlock` | libmesosphere/source/kern_k_page_heap.cpp:69-73 | frees exactly the pages of the block and keeps the invariant through any number of merges |
| `PageHeaps.PageHeap.Free` | libmesosphere/source/kern_k_page_heap.cpp:75-123 | frees exactly the given range, each page once, for every range |
| `PageHeaps.PageHeap.AllocateBlock` | libmesosphere/source/kern_k_page_heap.cpp:54-67 | returns Null if and only if no aligned wholly free run of the size exists; otherwise exactly the returned run stops being free, the remainder of a larger block included |
| `PageHeaps.PageHeap.GetNumFreePages` | libmesosphere/source/kern_k_page_heap.cpp:44-52 | is the number of free pages |
| `HeapRuns.TakeAsSets` | libmesosphere/source/kern_k_page_heap.cpp:54-67 | the page-by-page result of an allocation as a difference of free sets |
| `HeapRuns.GiveAsSets` | libmesosphere/source/kern_k_page_heap.cpp:75-123 | the page-by-page result of a free as a union of free sets |
| `HeapRuns.TakeStep` | libmesosphere/source/kern_k_page_heap.cpp:54-67 | one allocation executed: it fails exactly without an aligned free run, otherwise it takes pages that nobody held, and free and held pages keep making up the same whole |
| `HeapRuns.GiveStep` | libmesosphere/source/kern_k_page_heap.cpp:75-123 | one free of held pages executed: they are held no more, and the whole stays the same |
| `HeapRuns.Execute` | libmesosphere/source/kern_k_page_heap.cpp:44-123 | any sequence of allocations and frees executed on a heap: every answer is one that a plain set of pages would give, free and held pages are disjoint with the original free set as their union, and `GetNumFreePages` counts what is not held |
| `PageGroups.PageGroup.AddBlock` | libmesosphere/source/kern_k_page_group.cpp:57-85 | appends a block, or extends the last one where it continues; fails exactly if a block info is needed and none is left |
| `PageGroups.FlattenAdded` | libmesosphere/source/kern_k_page_group.cpp:57-85 | adding a block appends its pages to the page sequence and keeps maximal runs |
| `PageGroups.MaximalRunsCanonical` | libmesosphere/source/kern_k_page_group.cpp:103-119 | a group of maximal runs is determined by its page sequence |
| `PageGroups.PageGroup.GetNumPages` | libmesosphere/source/kern_k_page_group.cpp:47-55 | is the length of the page sequence |
| `PageGroups.PageGroup.Finalize` | libmesosphere/source/kern_k_page_group.cpp:20-30 | returns every block info |
| `PageGroups.IsEquivalentTo` | libmesosphere/source/kern_k_page_group.cpp:103-119 | equality block by block; on maximal runs that is equality of page sequences |
| `MemoryManagers.AllocatePageGroup` | libmesosphere/source/kern_k_memory_manager.cpp:233-282 | succeeds if and only if the request is nonzero, the pool has that many free pages and block infos suffice; success takes exactly that many distinct free pages; it reports missing infos only if it used all of them and they were fewer than the pages, and any other failure means that it had taken every free page of the pool; failure restores the pool if and only if no group block spans two heaps |
| `MemoryManagers.RestoredIffNoSpan` | libmesosphere/source/kern_k_memory_manager.cpp:238-246 | the roll back restores the pool exactly if no block of the group spans two heaps |
| `MemoryManagers.TouchingHeapsLosePage` | libmesosphere/source/kern_k_memory_manager.cpp:233-282 | a run in which that happens, with the program's block sizes: any two heaps that touch, the page on each side of the edge free and no other, three pages asked for; the allocation fails and the pool is not restored |
| `MemoryManagers.PoolExhausted` | libmesosphere/source/kern_k_memory_manager.cpp:248-277 | when the last size finds nothing the pool is empty |
| `MemoryManagers.GetBlockIndex` | libmesosphere/include/mesosphere/kern_k_page_heap.hpp:37-44 | the largest size not above the request, or -1 |
| `Blz.SafeDecodes` | libmesosphere/source/kern_k_initial_process_reader.cpp:27-74 | on a safe stream the two-buffer decoder succeeds with as many bytes as announced |
| `Blz.CopyInPlace` | libmesosphere/source/kern_k_initial_process_reader.cpp:49-65 | copying a match inside the shared buffer keeps the in-place invariant |
| `Blz.DecodeInPlace` | libmesosphere/source/kern_k_initial_process_reader.cpp:40-74 | the loops terminate and leave what the two-buffer decoder gives, with everything around the output unchanged |
| `Blz.BlzUncompress` | libmesosphere/source/kern_k_initial_process_reader.cpp:27-74 | the whole in-place decompression equals the two-buffer result, for every well-formed stream |
| `BlzTokens.MatchWordRoundTrip` | libmesosphere/source/kern_k_initial_process_reader.cpp:22-25 | packing a distance and a length into a match word and unpacking it gives them back |
| `BlzTokens.RoundTrip` | libmesosphere/source/kern_k_initial_process_reader.cpp:40-74 | decoding the encoding of any token list gives its expansion |
| `BlzTokens.SafeIffGroupsFit` | libmesosphere/source/kern_k_initial_process_reader.cpp:40-74 | an encoded token list can be decoded in place if and only if, from every group of eight tokens on, the stream is not longer than what it stands for |
| `BlzTokens.UncompressedImage` | libmesosphere/source/kern_k_initial_process_reader.cpp:27-74 | on an image with such a stream and a matching footer the in-place decompression leaves the expansion of the tokens, everything around it unchanged |
| `BlzTokens.MatchReadsDecodedOnly` | libmesosphere/source/kern_k_initial_process_reader.cpp:61-65 | the copy loop depends on decoded bytes alone if and only if the match is not longer than its distance |
| `Traversals.Traversal.NextRun` | libmesosphere/source/kern_k_page_table_base.cpp:1273-1290 | each further translation block continues the physical pages, and extends the current run exactly if it is contiguous |
| `PageRanges.WalkSees` | libmesosphere/source/kern_k_page_table_base.cpp:1255-1305 | a walk over a table has the first pages of a range exactly if they are mapped, and they are the pages behind them |
| `PageRanges.RunsForm` | libmesosphere/source/kern_k_page_group.cpp:57-85 | adding pages one by one gives the maximal-run form of the page sequence |
| `PageRanges.MakePageGroup` | libmesosphere/source/kern_k_page_table_base.cpp:1255-1305 | success yields the maximal-run form of the pages of the range, all runs starting in the heap; it fails for the range exactly if pages are missing, a run is outside the heap or the group was not empty, and for block infos only if there are fewer than pages |
| `PageRanges.IsValidPageGroup` | libmesosphere/source/kern_k_page_table_base.cpp:1307-1394 | true if and only if the range has enough pages and the group begins with their maximal runs, all in the heap |
| `PageRanges.ValidIffSamePages` | libmesosphere/source/kern_k_page_table_base.cpp:1307-1394 | on maximal runs with the same page count that is equality of page sequences |
| `PageRanges.TrailingBlocksUnchecked` | libmesosphere/source/kern_k_page_table_base.cpp:1307-1394 | without equal counts it is not: a longer group passes |
| `PageTables.MapPageGroup` | libmesosphere/source/kern_k_page_table_base.cpp:1155-1183 | maps the pages of the group in order, or restores the table |
| `AliasMemory.CountKept` | libmesosphere/source/kern_k_page_table_base.cpp:767-778 | the block count taken for the destination before the source is updated is still enough afterwards |
| `AliasMemory.MapMemory` | libmesosphere/source/kern_k_page_table_base.cpp:762-824 | success needs a source and a destination that pass every check and shows exactly the pages that the table has behind the source at the destination too; given block infos and table memory those checks are enough; failure changes nothing |
| `AliasMemory.UnmapMemory` | libmesosphere/source/kern_k_page_table_base.cpp:826-889 | goes on only with a locked source, an alias of the alias state and the same pages behind both in the table; given table memory these are enough, and the alias is taken away; every other outcome leaves blocks and table as they were, the one in which the alias was unmapped already included |
| `Remappings.RemapPageGroup` | libmesosphere/source/kern_k_page_table_base.cpp:1184-1253 | puts exactly the pages of the group behind the range, in order, however memory blocks and group blocks divide it, although each operation maps the whole rest of a memory block |
| `Remappings.RemapStep` | libmesosphere/source/kern_k_page_table_base.cpp:1217-1240 | after each operation only the rest of that memory block can be wrong |
| `Remappings.UsedUp` | libmesosphere/source/kern_k_page_table_base.cpp:1251-1252 | the closing check that the group is used up holds |
| `AliasMemory.MapThenUnmapRestoresView` | libmesosphere/source/kern_k_page_table_base.cpp:818-887 | the four block updates restore every page if and only if the source carried no Locked flag and the destination was bare |
| `AliasMemory.MapThenUnmap` | libmesosphere/source/kern_k_page_table_base.cpp:762-889 | mapping goes through exactly if the checks hold; unmapping with the same arguments, over whatever translation blocks the table then has, passes all checks, restores the page table, and restores the pages under exactly that condition |
| `AliasMemory.AliasPages` | libmesosphere/source/kern_k_page_table_base.cpp:762-889 | behind the alias are the pages of the source, and behind the source nothing changed |
| `IpcBuffers.Extents` | libmesosphere/source/kern_k_page_table_base.cpp:3570-3579 | every touched page is exactly one of start page, whole page and end page |
| `IpcBuffers.ReservedIsReleased` | libmesosphere/source/kern_k_page_table_base.cpp:3841-3858 | what cleanup releases equals what setup reserved and the number of edge pages, for every address and size |
| `IpcMappings.StartContentsAreEdge` | libmesosphere/source/kern_k_page_table_base.cpp:3662-3685 | the copies and fills of the start page give the buffer's bytes inside the buffer and the fill value outside |
| `IpcMappings.EndContentsAreEdge` | libmesosphere/source/kern_k_page_table_base.cpp:3747-3757 | the same for the end page |
| `IpcMappings.MapStartPage` | libmesosphere/source/kern_k_page_table_base.cpp:3656-3703 | fills and maps the start page and moves past the client page it stands for |
| `IpcMappings.MapRuns` | libmesosphere/source/kern_k_page_table_base.cpp:3705-3725 | maps whole pages run by run for every layout of translation blocks |
| `IpcMappings.MapLastRun` | libmesosphere/source/kern_k_page_table_base.cpp:3727-3744 | maps what is left of the whole pages and finds the client's last page |
| `IpcMappings.MapEndPage` | libmesosphere/source/kern_k_page_table_base.cpp:3746-3761 | fills and maps the end page |
| `IpcMappings.SetupForIpcServer` | libmesosphere/source/kern_k_page_table_base.cpp:3561-3773 | success maps each server page to the client's page or to a fresh edge page with the right contents, records the range in the server's blocks and reserves one page per edge; failure leaves table and blocks as they were; it succeeds whenever everything is granted |
| `IpcServers.CleanupForIpcServer` | libmesosphere/source/kern_k_page_table_base.cpp:3822-3861 | each outcome in terms of the range, its pages, the slab and the table memory; success unmaps the view, frees its blocks and releases one page per edge page, anything else changes nothing |
| `IpcServers.ShownIsServed` | libmesosphere/source/kern_k_page_table_base.cpp:3830 | pages just put to use pass the check of the cleanup if and only if no lock or device held them |
| `IpcServers.ServeAndCleanup` | libmesosphere/source/kern_k_page_table_base.cpp:3561-3861 | setup followed by cleanup: it goes through exactly if nothing held the pages; the table is as before, what is released is what was reserved, and the blocks are as before if and only if the area was clean |
| `IpcViews.ServerView` | libmesosphere/source/kern_k_page_table_base.cpp:3561-3773 | byte by byte, the server sees the client's bytes inside the buffer (edge pages only when sending) and nothing but the fill value outside it |
| `IpcViews.WholePagesMapped` | libmesosphere/source/kern_k_page_table_base.cpp:3705-3744 | when the walk is over the client's table, the server's table has the client's own page behind every whole page |
| `IpcViews.ProcessSendMessageReceiveMapping` | libmesosphere/source/kern_k_server_session.cpp:685-724 | each outcome in terms of the size, the state and the client's pages at the two edges; success copies exactly the edge bytes back, a refused end copy comes after the start copy |
| `IpcViews.CheckEdge` | libmesosphere/source/kern_k_page_table_base.cpp:3070-3080 | a copy is allowed exactly if its bytes are in the space and their page passes the test |
| `IpcViews.ReplyDelivers` | libmesosphere/source/kern_k_server_session.cpp:685-724 | if each edge page is mapped once, after the reply every byte of the client's buffer equals the server's view and every other byte of its pages is unchanged |
| `IpcViews.DeliversIffEdgesOnce` | libmesosphere/source/kern_k_server_session.cpp:685-724 | that is so for whatever memory holds if and only if each edge page of the client is mapped once in its buffer |
| `IpcViews.ReplyTouchesEdgesOnly` | libmesosphere/source/kern_k_server_session.cpp:685-724 | no page but the client's edge pages is written |
| `IpcProtections.SetupForIpcClient` | libmesosphere/source/kern_k_page_table_base.cpp:3458-3559 | accepts only buffers whose touched pages all pass, takes their whole pages away from the client in the page table and counts the cut ends; if a page does not pass or a change fails, the permissions are again what the blocks say |
| `IpcProtections.RollBack` | libmesosphere/source/kern_k_page_table_base.cpp:4049-4106 | the roll back over the blocks makes the permissions what the blocks say if and only if no page is locked with a changed permission whose original was the one being set |
| `IpcProtections.PassingIsNotStuck` | libmesosphere/source/kern_k_page_table_base.cpp:3519-3533 | no page that passed the checks is such a page |
| `IpcProtections.CoherentSame` | libmesosphere/source/kern_k_page_table_base.cpp:4049-4106 | two tables that are what the same blocks say agree entirely on unlocked pages, and up to execution on locked ones |
| `IpcProtections.LockCoherent` | libmesosphere/source/kern_k_page_table_base.cpp:3810-3814 | locking the taken pages makes the blocks say what the table has |
| `IpcProtections.TakenIsCoherentIff` | libmesosphere/source/kern_k_page_table_base.cpp:3786-3793 | taken pages without a lock are what the blocks say exactly if nothing had to be changed |
| `IpcSetups.SetupForIpc` | libmesosphere/source/kern_k_page_table_base.cpp:3775-3820 | the whole setup: on success the server has its view, the client's whole pages are locked and its permissions are what its blocks say; on failure both spaces and the permissions are as before, but for a slab without blocks, after which they are so exactly if nothing had to be changed |
| `IpcSetups.NoBlocksLeavesPageTaken` | libmesosphere/source/kern_k_page_table_base.cpp:3786-3806 | a run in which that happens: one block of three pages, the middle page offered, no block in the slab; the request fails and the page stays out of the client's reach |
| `IpcCleanups.CleanupForIpcClient` | libmesosphere/source/kern_k_page_table_base.cpp:3863-4047 | each outcome in terms of the range, the state and the table memory; a buffer without whole pages needs nothing; success unlocks the whole pages, failure changes no block, and in every case the permissions are what the blocks say |
| `IpcCleanups.CleanupPages` | libmesosphere/source/kern_k_page_table_base.cpp:3899-4047 | the same for the whole pages, for every grouping of alike blocks |
| `IpcCleanups.FreePages` | libmesosphere/source/kern_k_page_table_base.cpp:3967-4031 | one operation per group gives back exactly the pages that only this request had locked |
| `IpcCleanups.LockPages` | libmesosphere/source/kern_k_page_table_base.cpp:3903-3965 | the guard takes them away again from any point of failure |
| `IpcCleanups.UnlockCoherent` | libmesosphere/source/kern_k_page_table_base.cpp:4034-4041 | unlocking then makes the blocks say what the table has |
| `IpcRequests.Share` | libmesosphere/source/kern_k_page_table_base.cpp:3775-3820 | with any requests outstanding, overlapping ones included, a setup keeps the client in order: counters tell the requests, each owns its pages, and the permissions are what the blocks say |
| `IpcRequests.Release` | libmesosphere/source/kern_k_page_table_base.cpp:3863-4047 | cleaning up any of them, in any order, always has what it needs and keeps the client in order |
| `IpcRequests.AllReturned` | libmesosphere/source/kern_k_page_table_base.cpp:3775-4047 | with no request outstanding no page is locked and every permission is exactly what its block says |
| `IpcRuns.ChangeOther` | libmesosphere/source/kern_k_page_table_base.cpp:3775-4047 | an update of pages that no request has locked, with its page table operation, keeps the client in order |
| `IpcRuns.Execute` | libmesosphere/source/kern_k_page_table_base.cpp:3775-4047 | any run of requests to any servers, of their ends in any order and of other updates: at every point the counters tell exactly the outstanding requests, each owns its pages, and the permissions are what the blocks say; requests, answers and updates that have what they need go through; only a slab without blocks ends a run early |
| `IpcRuns.AllGivenBack` | libmesosphere/source/kern_k_page_table_base.cpp:3775-4047 | at every point of a run without an outstanding request no page is locked and every permission is what its block says |
| `PhysicalMappings.Scan` | libmesosphere/source/kern_k_page_table_base.cpp:4126-4155 | counts exactly the mapped pages, and the ends that cut a free block |
| `PhysicalMappings.CutsOfFreeExact` | libmesosphere/source/kern_k_page_table_base.cpp:4178-4221 | that count is exactly what the closing `UpdateIfMatch` needs, never more than two |
| `PhysicalMappings.MapRun` | libmesosphere/source/kern_k_page_table_base.cpp:4296-4317 | maps a stretch of free pages with the next pages of the group, across group blocks |
| `PhysicalMappings.MapFree` | libmesosphere/source/kern_k_page_table_base.cpp:4277-4330 | backs the free pages of the range with the pages of the group in order |
| `PhysicalMappings.UnmapGuard` | libmesosphere/source/kern_k_page_table_base.cpp:4238-4275 | the cleanup guard restores the page table from any point of failure |
| `PhysicalMappings.MapPhysicalMemory` | libmesosphere/source/kern_k_page_table_base.cpp:4108-4350 | with the changes of other threads as any sequence of turns: it ends in the first turn in which the number of free pages did not change between the two checks or something could not be had, with the outcome and the memory of that turn; it is still trying only if every turn was disturbed |
| `PhysicalMappings.Attempt` | libmesosphere/source/kern_k_page_table_base.cpp:4155-4350 | one turn: the outcome is determined by what is mapped already, the resource limit, the grants and the changes in between; success uses the group fully on the free pages and nothing else, and the counter and the reservation grow by exactly their number; every other outcome changes nothing |
| `PhysicalMappings.BackedPages` | libmesosphere/source/kern_k_page_table_base.cpp:4330-4341 | page by page: a free page becomes Normal and read-write on its own distinct page, any other page and its mapping is untouched |
| `PhysicalMappings.GroupUsedUp` | libmesosphere/source/kern_k_page_table_base.cpp:4277-4330 | every page of the group ends up behind some page |
| `Regions.Placement.InitializeForProcess` | libmesosphere/source/kern_k_page_table_base.cpp:197-287 | fails exactly if the chosen gap is too small; otherwise every region is placed by its scaled draw (zero without randomisation) behind the regions that come before it, and the abort checks hold |
| `Regions.ScaledDraws` | libmesosphere/source/kern_k_page_table_base.cpp:210-219 | what the random generator may return, scaled by the region alignment, stays in the remaining space |
| `Regions.PlacesApart` | libmesosphere/source/kern_k_page_table_base.cpp:228-287 | the mixed comparisons form one total order, so places do not overlap and stay in the gap |
| `Regions.RegionsApart` | libmesosphere/source/kern_k_page_table_base.cpp:197-287 | for all draws the regions are pairwise disjoint, stack and kernel map included, inside the gap, and clear of the code |
| `Regions.ChecksNeverFire` | libmesosphere/source/kern_k_page_table_base.cpp:304-328 | the abort checks never fire |
| `PriorityQueues.PriorityQueue.PushBack` | libmesosphere/include/mesosphere/kern_k_priority_queue.hpp:142-151 | the lists by priority with their bit set refine insertion into one ordered queue |
| `PriorityQueues.PriorityQueue.Remove` | libmesosphere/include/mesosphere/kern_k_priority_queue.hpp:164-173 | and removal from it |
| `PriorityQueues.PriorityQueue.GetFront` | libmesosphere/include/mesosphere/kern_k_priority_queue.hpp:175-184 | and its front |
| `PriorityQueues.PriorityQueue.GetNext` | libmesosphere/include/mesosphere/kern_k_priority_queue.hpp:197-208 | and the successor of a thread in it |
| `SchedulerUpdates.MigratedOk` | libmesosphere/include/mesosphere/kern_k_priority_queue.hpp:389-416 | `ChangeCore` to a core of its affinity keeps every thread in the queue of its core and suggested for exactly the other cores of its affinity |
| `SchedulerUpdates.TopsDistinct` | libmesosphere/source/kern_k_scheduler.cpp:108-205 | no thread is chosen on two cores |
| `SchedulerUpdates.FirstPassGood` | libmesosphere/source/kern_k_scheduler.cpp:119-144 | choosing a thread for every core, pinned threads included, establishes the invariant |
| `SchedulerUpdates.StepGood` | libmesosphere/source/kern_k_scheduler.cpp:146-202 | filling one idle core keeps every chosen thread queued on its core and recorded |
| `SchedulerUpdates.StepOutcome` | libmesosphere/source/kern_k_scheduler.cpp:146-202 | an idle core gets a thread, meets the high-priority stop, or is idle because every thread suggested for it runs alone on its own core; it stays idle exactly in the last two cases |
| `SchedulerUpdates.StepKeepsSettled` | libmesosphere/source/kern_k_scheduler.cpp:146-202 | filling another core does not undo the last |
| `SchedulerUpdates.WorkConserved` | libmesosphere/source/kern_k_scheduler.cpp:145-202 | hence work conservation after any number of rounds |
| `SchedulerUpdates.UpdateConservesWork` | libmesosphere/source/kern_k_scheduler.cpp:108-205 | and of the whole update |
| `SchedulerUpdates.UpdateReportsChanges` | libmesosphere/source/kern_k_scheduler.cpp:82-106 | a core whose bit is clear kept its thread |
| `SchedulerUpdates.RoundsMoves` | libmesosphere/source/kern_k_scheduler.cpp:166-196 | threads only ever move to cores that had nothing scheduled |
| `SchedulerUpdates.UnpinnedCoresRunFront` | libmesosphere/source/kern_k_scheduler.cpp:119-202 | a core whose front no pinned thread displaces ends up running the front of its queue, whatever moved in between |
| `SchedulerUpdates.BusyCores` | libmesosphere/source/kern_k_scheduler.cpp:119-202 | a core that had threads ends up idle exactly if the pin rule chose none for it before the update, keeps a pinned thread that displaced its front, and otherwise runs the front of its queue |
| `SchedulerUpdates.IdleExactly` | libmesosphere/source/kern_k_scheduler.cpp:108-205 | the exact reason of every core that is idle after the update, with and without threads scheduled |
| `SchedulerUpdates.NoMover` | libmesosphere/source/kern_k_scheduler.cpp:152-196 | no thread moves to an idle core exactly if the walk stopped at a thread of too high a priority or every suggested thread runs alone on its own core |
| `SchedulerUpdates.BlockedCoreIsNotRevisited` | libmesosphere/source/kern_k_scheduler.cpp:119-202 | a core blocked by a sleeping pinned thread is not chosen for again when its front moves away: it stays idle with a free thread waiting |
| `Schedulers.NewCandidate` | libmesosphere/source/kern_k_scheduler.cpp:178-181 | a core is noted as candidate at most once and never the idle core, so the candidate array has room |
| `Schedulers.Scheduling.UpdateHighestPriorityThread` | libmesosphere/source/kern_k_scheduler.cpp:82-106 | records the thread and reports the core exactly if that is a change |
| `Schedulers.Scheduling.ChooseThreads` | libmesosphere/source/kern_k_scheduler.cpp:118-144 | the first loop computes the choice for every core and the idle set |
| `Schedulers.Scheduling.ScanSuggested` | libmesosphere/source/kern_k_scheduler.cpp:152-183 | the walk over suggested threads, with its candidate array |
| `Schedulers.Scheduling.FillIdleCore` | libmesosphere/source/kern_k_scheduler.cpp:146-202 | one round of the migration loop |
| `Schedulers.Scheduling.UpdateHighestPriorityThreadsImpl` | libmesosphere/source/kern_k_scheduler.cpp:108-205 | computes the specified update, keeps the invariant, and reports every change |
| `Sessions.StepInv` | libmesosphere/source/kern_k_server_session.cpp:968-1386 | every step of every operation keeps the session invariant |
| `Sessions.EveryRequestIsSomewhere` | libmesosphere/source/kern_k_server_session.cpp:968-1386 | in every run each accepted request is in at most one place; while it is somewhere the session holds one reference (two while the client's closing looks at it) and its client has not been told; afterwards opens equal closes and the client was told at most once, exactly once if the event is still there |
| `Sessions.QueuedHasThread` | libmesosphere/source/kern_k_server_session.cpp:992-998 | in every run a queued request has a thread, so the exit that would lose it is unreachable, and the client's closing never meets a current request without one |
| `Sessions.FinishedForGood` | libmesosphere/source/kern_k_server_session.cpp:1226-1292 | a finished request is never touched again |
| `Sessions.CleanedUpForGood` | libmesosphere/source/kern_k_server_session.cpp:1226-1292 | once the server's end has cleaned up the session stays empty and every request is finished |
| `Sessions.NoLostWakeup` | libmesosphere/source/kern_k_server_session.cpp:1206-1217 | a step that makes the session signalled notifies, unless it is an end writing that it closed |
| `Sessions.ClosingNotifies` | libmesosphere/source/kern_k_server_session.cpp:1294-1386 | once the client has written that it closed, its end is not done without a step in between that notifies |
| `Sessions.ToldExactly` | libmesosphere/source/kern_k_server_session.cpp:968-1386 | in every run from its acceptance on, the client of a request is told exactly if the request still has its thread when it is finished, and has an event or a thread that is not terminating and was not dropped by the client's closing |
| `Sessions.EndIsTold` | libmesosphere/source/kern_k_server_session.cpp:968-1386 | the same from any point of a run |
| `Sessions.StaysDone` | libmesosphere/source/kern_k_session.cpp:62-78 | the closing of the server's end is final |

## Left out

- Translation tables, cache and TLB maintenance, flags in the tables that forbid merging entries, and `Operate` itself: hardware.
- Reference counts of physical pages (`Open`, `Close`) and the optimized-allocation bitmap.
- The hierarchical bitmap `KPageBitmap` below the heap levels; a level is a set of block numbers.
- `FindFreeArea` and the choice of its alignment: the area it returns is a parameter.
- IpcSetups.SetupForIpc: a process that sends to itself, where both sides are one space, is not modelled.
- IpcViews.ProcessSendMessageReceiveMapping: a copy that faults half-way in the client's or the server's memory is not modelled.
- IpcCleanups.CleanupForIpcClient: the check that the pages are locked, which aborts, is a precondition.
- Blz.BlzUncompress: streams that are not well-formed are outside its contract, as they are outside the code's.
- BlockManagers.BlockManager.UpdateRange: needs a block before the range (`HasPredecessor`); without one the code decrements the first iterator. `ChangeRange` has no such condition.
- Sessions: message translation, handles, and the contents of replies; reference counts of threads and events.
- `UnmapPhysicalMemory`, `MapPhysicalMemoryUnsafe`, code memory and transfer memory: variations of the operations modelled.
- Thread switching, timers, tracing and tick accounting.
