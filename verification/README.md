# Verified models of hcom's memory and indexing core

This project models the data structures and small protocols on which the hcom communication
library rests, and proves what callers rely on. Each model follows its source: objects that are
updated in place are classes over explicit memory (pointers are addresses, cells are map entries),
loops are loops, and code that several threads run at once is a state machine whose steps are the
single reads, writes and compare-and-swaps.

* **Page table** (`Bits`, `PgtTree`, `PgtOrder`, `PgtMemory`, `PgtGeometry`, `PgtMoves`, `PgtDescent`,
  `PgtUnlink`, `PgtRegions`, `PgtSweep`, `PgTable`). A radix tree with sixteen entries a directory
  that grows and shrinks at its root. Its memory holds exactly the directories of the tree, its
  answers are exactly the stored regions, and its shape depends on nothing else.
* **Red-black tree** (`RbShape`, `RbMemory`, `RbErase`, `RbTree`, `RbOrder`, `RbPacking`). Parent and child
  pointers, all fix-ups, proved through trees with a hole: a pointer to a node is a place in the tree.
* **Allocator** (`FreeLists`, `MemBlocks`, `MemAreas`, `MemMerge`, `MemDescent`, `MemTake`,
  `MemRegion`, `MemPartition`, `MemUnits`, `MemHeader`, `MemGuard`, `MemAccounts`, `MemNodes`,
  `MemAllocator`, `MemRuns`, with `Multiples`, `Sequences` and `LittleEndian`). The same free areas in the red-black
  tree and in 1024 lists; a map of lengths for aligned addresses, headers in the managed bytes
  otherwise. Nodes live in the free areas themselves: the tree's cells, the lists' links and the
  areas' records exist at the starts of free areas and nowhere else, and every call that changes them
  leaves arbitrary bytes in the managed memory at the nodes of the areas free before and after it.
* **Address-to-size map** (`AddrEntry`, `AddrMapSteps`, `AddrMapInv`, `AddrMapProof`, `AddrMapRuns`,
  `AddrMapProgress`). Any number of threads, any interleaving of single steps.
* **Fixed-size pool with thread caches** (`PoolLists`, `PoolState`, `PoolExpand`, `PoolMoves`, `FixedPool`).
* **Allocator cache** (`CacheTiers`, `CacheWords`, `CacheBooks`, `AllocatorCache`), on top of the
  allocator, with the 32-bit products of the code and the 16-bit sizes of the address-to-size map.
* **CRC-32C** (`CrcBits`, `CrcTable`, `Crc32`, `CrcReference`, `CrcBursts`, `CrcHardware`).
* **Ring buffer, blocking queue and executor** (`RingBuffer`, `ExecutorShutdown`, `ExecutorTasks`).
* **Fragment reassembly** (`Splice`), **timer list** (`TimerList`), **worker-group options** (`Text`,
  `WorkerGroups`, `WorkerRoundTrip`).

Locks are not modelled where an operation runs wholly under one: the operation is then one step.
Memory from the system, the next free directory address, and what the network delivers are
parameters. Integers are unbounded; widths that matter are written out (the 32-bit list index and
header length, the cache's 32-bit sizes, 48-bit addresses and 16-bit sizes in map entries, 8-bit CPU
numbers, 64-bit address arithmetic).

Some promises hold only under a condition. The condition is proved to be exact:

* An entry of the address-to-size map gives its address and size back exactly if the address has 48
  bits and the size 16 (`AddrEntry.RoundTripExactly`).
* A block's header gives its reserved length back exactly if that is below 4 GiB
  (`MemHeader.RecoversBelow4GiB`).
* Freeing a block right after allocating it restores the free areas exactly if the area was not
  handed out whole although longer (`MemTake.TakeThenReturn`); with headers it can be, and the rest
  is lost.
* A free area is reached by the search for every request it could serve exactly if it is shorter than
  2^44 bytes or in the last list (`MemAreas.ReachedExactly`, failing input `MemAreas.MissedBeyondSpan`),
  and its list is inside the array exactly if its length modulo 2^44 is at least 4096
  (`MemAreas.InsideExactly`, failing input `MemAreas.OutsideAtSpan`).
* With aligned addresses no run leaves a free area too short for its own node exactly if the range is
  a whole number of blocks or its rest is at least 72 bytes (`MemRuns.NeverShortExactly`, failing
  input `MemRuns.EightBytesLeft`).
* An allocation hands out an address that stays free, or one whose node does not fit when it comes
  back, exactly if the size is 0 or within one block of 2^64 and some area is free
  (`MemAllocator.NetMemAllocator.Allocate`, `MemTake.FreeNoLonger`, `MemAllocator.NodeComesBack`,
  failing input `MemAllocator.SixteenForNothing`).
* The word a tree node packs its parent and colour into gives both back exactly if the parent is a
  multiple of 4 (`RbPacking.ParentComesBack`), which every free area's address is exactly if the
  managed range starts at one (`MemAllocator.NetMemAllocator.AreasPack`).
* A super block of the fixed-size pool becomes whole batches of all its blocks exactly if it is
  shorter than 2^32 blocks (`FixedPool.NetMemPoolFixed.MakeFreeList`); beyond, the 32-bit count can be
  0, which is refused (`FixedPool.NoneCounted`), or leave a batch unfinished, whose null pointer the
  code follows once nothing else is left (`FixedPool.UnfinishedBatch`).
* On aarch64 the hardware checksum is the right one exactly if the buffer is empty or reaches the next
  multiple of 4 (`CrcHardware.NetCrc32CAarch64`, failing input `CrcHardware.OneByte`).
* The allocator cache loses no size exactly if its largest tier is below 4 GiB and 2^16 base blocks,
  half a full list of it below 4 TiB, and all addresses below 2^48 (`CacheWords.NothingLost`, failing
  inputs `CacheWords.FiveForOne` and `CacheWords.HalfUncounted`). Only then are conservation, the size
  handed out and the tier a block goes back to promised; what else the operations promise holds under
  all options.
* A message put together from fragments is the one that was sent exactly if the ranges of the
  fragments received cover it (`Splice.WholeExactly`, failing input `Splice.GapUnnoticed`): the code
  only looks at where the last fragment ends.
* A shutdown of the executor stops every worker in every run, once nobody pushes tasks any more,
  exactly if the queue has room for all the STOPs still to come (`ExecutorShutdown.StopsExactly`,
  failing run `ExecutorShutdown.NeverStops`). A task accepted is finished by the end of every run that
  leaves a worker (`ExecutorTasks.LeftInQueue`); where all workers stop, STOPs overtake tasks, and those
  in the queue stay there (failing run `ExecutorTasks.TaskLeft`).
* Printed worker groups give every worker its CPU exactly if no group's first CPU is 128 or beyond
  255 (`WorkerRoundTrip.RoundTrip`, failing input `WorkerRoundTrip.Cpu128Lost`); the comments in the
  source promise 0 to 127, the code accepts up to 611.
* Flattening parsed worker groups divides by zero exactly if CPUs may be shared and the first range
  that cannot be bound has 256 or 512 CPUs and does not start at 128 or 384
  (`WorkerRoundTrip.DividesExactly`, failing input `WorkerRoundTrip.CountLost`).

## Model

| member | source | states |
|---|---|---|
| `PgtOrder.NextPageLargestFit` | src/hcom/common/net_pgtable.cpp:299-332 | the next page is the largest naturally aligned page that starts at the address and stays below the end |
| `PgtOrder.NextPageStable` | src/hcom/common/net_pgtable.cpp:496-505 | moving the end nearer, but not before the page's own end, leaves the page's order unchanged: why a rollback recomputed against the refused address finds the inserted orders |
| `PgtOrder.AfterPage` | src/hcom/common/net_pgtable.cpp:70-78 | behind a page the address is aligned again and not past the end |
| `PgtGeometry.InRange` | src/hcom/common/net_pgtable.cpp:545-560 | masking an address gives the table's base exactly if the address lies in the table's block |
| `PgtGeometry.GeometryUp` | src/hcom/common/net_pgtable.cpp:182-211 | base, mask and shift after growing describe the block sixteen times as large, and the old block's index is the digit dropped from the base |
| `PgtMoves.ExpandFind` | src/hcom/common/net_pgtable.cpp:182-211 | growing the root changes no answer |
| `PgtMoves.ShrunkCanonical` | src/hcom/common/net_pgtable.cpp:213-260 | shrinking ends with an empty, single-region or at-least-two-entry root and changes no answer |
| `PgtMoves.ShrunkExpanded` | src/hcom/common/net_pgtable.cpp:182-260 | shrinking undoes growing exactly, directory addresses included |
| `PgtMoves.UnlinkedFind` | src/hcom/common/net_pgtable.cpp:400-443 | unlinking a page takes away the answers of that page and of no other address |
| `PgtTree.CanonicalUnique` | src/hcom/common/net_pgtable.cpp:160-260 | two canonical tables with the same answers have the same level, block and tree up to directory addresses |
| `PgtRegions.HistoryIndependent` | src/hcom/common/net_pgtable.cpp:466-543 | two canonical tables that store the same regions are the same up to directory addresses, whatever led to them |
| `PgtRegions.RollBackPage` | src/hcom/common/net_pgtable.cpp:496-505 | during a rollback the recomputed order is the one the page was inserted with, and the page found is the region's |
| `PgtRegions.BlockedOverlaps` | src/hcom/common/net_pgtable.cpp:478-505 | a refused page means that the region overlaps a stored one |
| `PgtRegions.StoredAnswer` | src/hcom/common/net_pgtable.cpp:545-591 | what a table that stores a set of regions finds at an address is the stored region that covers it, and nothing is found exactly if none does |
| `PgtSweep.SweepTree` | src/hcom/common/net_pgtable.cpp:593-648 | walking a subtree reports exactly the regions that start in its block, in ascending order |
| `PgTable.NetPgTable.constructor` | src/hcom/common/net_pgtable.h:229-260 | a new table is valid and stores nothing |
| `PgTable.NetPgTable.DirAlloc` | src/hcom/common/net_pgtable.cpp:80-104 | a directory comes from an address where none lives, with sixteen empty entries |
| `PgTable.NetPgTable.DirRelease` | src/hcom/common/net_pgtable.cpp:106-118 | only a live directory can be released, and it is gone afterwards |
| `PgTable.NetPgTable.Expand` | src/hcom/common/net_pgtable.cpp:182-211 | grows by one level exactly if the table is not yet at the top, to the expanded table |
| `PgTable.NetPgTable.Shrink` | src/hcom/common/net_pgtable.cpp:213-260 | one step towards the fully shrunk table, which it has reached exactly if it reports nothing to do |
| `PgTable.NetPgTable.EnsureCapacity` | src/hcom/common/net_pgtable.cpp:160-180 | afterwards the table spans the page and holds its address, with the same answers |
| `PgTable.NetPgTable.InsertPage` | src/hcom/common/net_pgtable.cpp:341-398 | succeeds exactly if the page covers no covered address, and then adds exactly the page's answers; directories are those of the tree |
| `PgTable.NetPgTable.UnlinkRegion` | src/hcom/common/net_pgtable.cpp:400-443 | unlinks the page found along the address exactly if it is the region's page of that order, releases the directories this empties, and leaves all others |
| `PgTable.NetPgTable.RemovePage` | src/hcom/common/net_pgtable.cpp:445-464 | succeeds exactly if the page is the region's, and then the table is canonical without exactly that page's answers |
| `PgTable.NetPgTable.RollBack` | src/hcom/common/net_pgtable.cpp:496-505 | takes out all pages put in before the refused one and ends in the table before, up to directory addresses |
| `PgTable.NetPgTable.Insert` | src/hcom/common/net_pgtable.cpp:466-506 | succeeds exactly if the region is aligned, not empty and overlaps no stored region, and then stores it besides the others; on failure the table is the same up to directory addresses |
| `PgTable.NetPgTable.Remove` | src/hcom/common/net_pgtable.cpp:508-543 | succeeds exactly if the region is stored, and then the others remain; otherwise nothing changes |
| `PgTable.NetPgTable.Lookup` | src/hcom/common/net_pgtable.cpp:545-591 | returns the stored region that covers the address, and nothing exactly if none does |
| `PgTable.NetPgTable.SearchSubtree` | src/hcom/common/net_pgtable.cpp:593-648 | for a subtree inside the range, does what visiting all its entries does |
| `PgTable.NetPgTable.SearchRange` | src/hcom/common/net_pgtable.cpp:650-680 | over the table's own range, finds every stored region |
| `PgTable.NetPgTable.Cleanup` | src/hcom/common/net_pgtable.cpp:682-726 | finds each stored region once, in ascending order, and leaves the initial empty table with no directory allocated |
| `RbShape.HeightBound` | src/hcom/common/net_rb_tree.h:160-322 | two to the height is at most the square of one more than the number of nodes |
| `RbTree.NetRbTree.constructor` | src/hcom/common/net_rb_tree.h:160-161 | a new tree is empty |
| `RbTree.NetRbTree.RotateLeft` | src/hcom/common/net_rb_tree.h:163-188 | the memory holds the left rotation at the node, all other links unchanged |
| `RbTree.NetRbTree.RotateRight` | src/hcom/common/net_rb_tree.h:190-215 | the memory holds the right rotation at the node, all other links unchanged |
| `RbTree.NetRbTree.LinkNode` | src/hcom/common/net_rb_tree.h:145-157 | the node is linked as a red leaf into the empty place |
| `RbTree.NetRbTree.InsertLeft` | src/hcom/common/net_rb_tree.h:221-256 | one fix-up step on the left moves the violation two levels up or ends it, with the same order of nodes |
| `RbTree.NetRbTree.InsertRight` | src/hcom/common/net_rb_tree.h:261-291 | one fix-up step on the right moves the violation two levels up or ends it, with the same order of nodes |
| `RbTree.NetRbTree.Insert` | src/hcom/common/net_rb_tree.h:296-322 | the tree is a red-black tree again: black root, no red child of a red node, equal black heights, consistent parents, and the same order of nodes; the memory has cells at the same addresses as before |
| `RbTree.NetRbTree.EraseColorLeft` | src/hcom/common/net_rb_tree.h:327-375 | one step on a missing black level on the left repairs it or moves it up, with the same order of nodes |
| `RbTree.NetRbTree.EraseColorRight` | src/hcom/common/net_rb_tree.h:380-431 | one step on a missing black level on the right repairs it or moves it up, with the same order of nodes |
| `RbTree.NetRbTree.EraseColor` | src/hcom/common/net_rb_tree.h:436-462 | a tree short of one black level at one place is a red-black tree again, with the same order of nodes |
| `RbTree.NetRbTree.EraseWithTwoChildren` | src/hcom/common/net_rb_tree.h:467-511 | the successor has left its place and stands in the erased node's |
| `RbTree.NetRbTree.Erase` | src/hcom/common/net_rb_tree.h:516-561 | the tree is a red-black tree, and the order of nodes lacks exactly the erased one; the memory has cells at the same addresses as before |
| `RbTree.NetRbTree.Replace` | src/hcom/common/net_rb_tree.h:566-593 | the new node stands in the old one's place with its colour and children; the memory has cells at the same addresses as before and at the new node's |
| `RbTree.NetRbTree.Next` | src/hcom/common/net_rb_tree.h:118-143 | the first node after this one in order, or null |
| `RbTree.NetRbTree.Prev` | src/hcom/common/net_rb_tree.h:96-113 | the last node of the left subtree, and the node itself if there is none |
| `RbPacking.ParentComesBack` | src/hcom/common/net_rb_tree.h:43-81 | setting a parent in the packed word gives the parent back and keeps the colour exactly if the parent is a multiple of 4 |
| `RbPacking.ColorComesBack` | src/hcom/common/net_rb_tree.h:48-81 | setting a colour in the packed word gives it back and keeps the parent |
| `RbOrder.EraseAt` | src/hcom/common/net_rb_tree.h:516-561 | erasing takes exactly that node out of the order; the memory holds the tree's nodes and nothing else, before and after |
| `RbOrder.ReplaceAt` | src/hcom/common/net_rb_tree.h:566-593 | replacing puts the new node at the old one's place of the order and keeps the red-black laws; the memory holds the tree's nodes and nothing else, before and after |
| `RbOrder.InsertAt` | src/hcom/common/net_rb_tree.h:145-157 | linking and fixing up puts the node at its place of the order and keeps the red-black laws; the memory holds the tree's nodes and nothing else, before and after |
| `FreeLists.FreeListArray.constructor` | src/hcom/common/net_linked_list.h:63-66 | every list is empty |
| `FreeLists.FreeListArray.RemoveSelf` | src/hcom/common/net_linked_list.h:52-60 | exactly that node leaves its ring; links of all other rings stay |
| `FreeLists.FreeListArray.Append` | src/hcom/common/net_linked_list.h:34-78 | the node is last in its ring, in both directions; links of all other rings stay |
| `FreeLists.FreeListArray.Step` | src/hcom/common/net_linked_list.h:80-83 | the link behind a position of a list, the head behind the last |
| `MemAreas.UnitsExact` | src/hcom/common/net_mem_allocator.cpp:395-396 | the 32-bit length in units of 4096 is exact exactly below 2^44 bytes |
| `MemAreas.SearchReaches` | src/hcom/common/net_mem_allocator.cpp:395-396 | a search for no more than an area's length starts at or before the area's list, whichever of the two index formulas placed it |
| `MemAreas.ReachedExactly` | src/hcom/common/net_mem_allocator.cpp:395-470 | an area placed by either formula is reached by the search for every request it could serve exactly if it is shorter than 2^44 bytes or in the last list |
| `MemAreas.MissedBeyondSpan` | src/hcom/common/net_mem_allocator.cpp:449-451 | an area of 2^44 + 4096 bytes goes to list 1, and a request for 12288 bytes starts at list 2 |
| `MemAreas.InsideExactly` | src/hcom/common/net_mem_allocator.cpp:526-530 | the index of an inserted area is inside the array of lists exactly if its length modulo 2^44 is at least 4096 |
| `MemAreas.OutsideAtSpan` | src/hcom/common/net_mem_allocator.cpp:526-530 | for exactly 2^44 bytes the index wraps to 2^32 - 1, outside the array |
| `MemBlocks.JoinedGapped` | src/hcom/common/net_mem_allocator.cpp:80-169 | after a block came back no two free areas touch |
| `MemBlocks.JoinedCovers` | src/hcom/common/net_mem_allocator.cpp:80-169 | the free areas cover what they covered and the block, and nothing else |
| `MemBlocks.JoinedTotal` | src/hcom/common/net_mem_allocator.cpp:80-169 | the free areas' total grows by the block's length |
| `MemDescent.MeetsRight` | src/hcom/common/net_mem_allocator.cpp:501-508 | when the descent meets the area behind the block, nothing else is in between, and without a left subtree no area touches the block from the left: why looking into the left subtree only is enough |
| `MemTake.TakenTotal` | src/hcom/common/net_mem_allocator.cpp:424-462 | the free areas' total shrinks by the request, or by the whole area |
| `MemTake.TakenCovers` | src/hcom/common/net_mem_allocator.cpp:424-462 | the free areas cover what they covered but the block handed out |
| `MemTake.TakeThenReturn` | src/hcom/common/net_mem_allocator.cpp:420-462 | returning a block at once restores the free areas exactly if the area was not handed out whole although longer |
| `MemTake.FreeNoLonger` | src/hcom/common/net_mem_allocator.cpp:420-462 | the address handed out is free no longer exactly if the request is for something |
| `MemTake.KeepsRest` | src/hcom/common/net_mem_allocator.cpp:420-459 | with records inside the areas what lies behind the request stays free, every address of it, exactly if the area is at least 72 bytes and one block longer, and is lost otherwise; without it always stays |
| `MemTake.SeenAll` | src/hcom/common/net_mem_allocator.cpp:395-470 | when the lists from the start index on hold no area that is long enough, there is none |
| `MemRegion.MemoryRegion.constructor` | src/hcom/common/net_mem_allocator.cpp:36-46 | no free area, empty lists, all counts zero |
| `MemRegion.MemoryRegion.MemoryAreaInsertPre` | src/hcom/common/net_mem_allocator.cpp:80-125 | the block is merged with the area behind it and with the one before it if they touch; tree, lists, counts and records agree |
| `MemRegion.MemoryRegion.MemoryAreaInsertNext` | src/hcom/common/net_mem_allocator.cpp:130-169 | the block is merged with the area before it and with the one behind it if they touch; tree, lists, counts and records agree |
| `MemRegion.MemoryRegion.MemoryAreaInsert` | src/hcom/common/net_mem_allocator.cpp:478-538 | the free areas are the old ones with the block merged into the ones it touches on either side; tree and lists hold the same areas, each count is its list's length, and the free size grows by the block |
| `MemRegion.MemoryRegion.Footprint` | src/hcom/common/net_mem_allocator.cpp:24-27 | records, tree cells and list links lie at the starts of the free areas and nowhere else, before and after every call |
| `MemRegion.MemoryRegion.SearchList` | src/hcom/common/net_mem_allocator.cpp:403-466 | the first area of a list that is long enough, or none exactly if all are shorter |
| `MemRegion.MemoryRegion.MemoryAreaRemove` | src/hcom/common/net_mem_allocator.cpp:381-471 | for every length, 0 included, succeeds exactly if some free area is at least as long, in both modes, and otherwise nothing changes; with records inside the areas, every address behind the request stays free exactly if the area is at least 72 bytes and one block longer, and all of the rest is lost otherwise; without, the rest always stays |
| `MemPartition.PartedTaken` | src/hcom/common/net_mem_allocator.cpp:266-295 | handing a block out keeps free and held blocks a partition of the range |
| `MemPartition.PartedJoined` | src/hcom/common/net_mem_allocator.cpp:297-325 | taking a block back keeps the partition |
| `MemPartition.NothingHeldOneBlock` | src/hcom/common/net_mem_allocator.cpp:297-325 | a partition with nothing held and no two free areas adjacent is one area of the full size |
| `Multiples.RoundedUp` | src/hcom/common/net_mem_allocator.h:31-32 | rounding up gives the next multiple of the block size |
| `MemHeader.ReadHeader` | src/hcom/common/net_mem_allocator.cpp:249-260 | the fields read from an intact header are the canary, the 32-bit number of blocks and the requested size that were written |
| `MemHeader.RecoversBelow4GiB` | src/hcom/common/net_mem_allocator.cpp:351-354 | the length computed from a header in 32-bit arithmetic is the reserved one exactly if that is below 4 GiB |
| `MemGuard.HeaderClear` | src/hcom/common/net_mem_allocator.cpp:220-264 | a header lies where neither a caller nor a node may write |
| `MemGuard.GuardedWrite` | src/hcom/common/net_mem_allocator.cpp:220-264 | any allowed write leaves every header |
| `MemGuard.GuardedTaken` | src/hcom/common/net_mem_allocator.cpp:220-264 | handing out a block and writing its header leaves every other header |
| `MemGuard.MarkedKeepsData` | src/hcom/common/net_mem_allocator.cpp:249-260 | writing a header changes no byte that a caller holds |
| `MemAccounts.AllFreed` | src/hcom/common/net_mem_allocator.cpp:297-325 | with nothing held the free areas are one of the full size and the free size is the whole |
| `MemUnits.GridDivisible` | src/hcom/common/net_mem_allocator.cpp:420-462 | on the grid of whole blocks a request of whole blocks leaves nothing of an area, or what holds a node, if the range's rest does |
| `MemNodes.TakenMissesHeaders` | src/hcom/common/net_mem_allocator.cpp:381-471 | the nodes written while a block is handed out reach no header live before or after, the new block's included |
| `MemNodes.JoinedMissesHeaders` | src/hcom/common/net_mem_allocator.cpp:478-538 | the nodes written while a block is taken back, at the block too, reach no header live before or after, its own included |
| `MemNodes.DataStays` | src/hcom/common/net_mem_allocator.cpp:381-538 | node writes inside free areas change no byte a caller holds |
| `MemNodes.UnalignedHanded` | src/hcom/common/net_mem_allocator.cpp:220-264 | after the node writes, with any bytes, and the header write all headers are intact, the sums agree and no caller's byte has changed |
| `MemNodes.UnalignedJoinedOver` | src/hcom/common/net_mem_allocator.cpp:327-375 | after the node writes of a return, with any bytes, all headers are intact, the sums agree and no other caller's byte has changed |
| `MemAllocator.CheckOptions` | src/hcom/common/net_mem_allocator.h:136-154 | parameters are accepted exactly if there is an address, the block size is a power of two from 4 KiB to 1 GiB, and the range holds one block |
| `MemAllocator.EndOf` | src/hcom/common/net_mem_allocator.h:162-169 | the 64-bit end of a range is not behind its start exactly if the range wraps around |
| `MemAllocator.NetMemAllocator.Initialize` | src/hcom/common/net_mem_allocator.h:126-179 | the range becomes one free area, with the block size and the mode asked for; other parameters, a second initialization and a range that wraps are refused as the code does |
| `MemAllocator.NetMemAllocator.Join` | src/hcom/common/net_mem_allocator.cpp:176-197 | the region has one free area, its total and free size are the range's |
| `MemAllocator.NetMemAllocator.TakeArea` | src/hcom/common/net_mem_allocator.cpp:381-471 | the region's removal with all it says of the rest of the area, and only bytes of nodes at areas free before or after it may change |
| `MemAllocator.NetMemAllocator.ReturnArea` | src/hcom/common/net_mem_allocator.cpp:478-538 | the region's insertion, and only bytes of nodes at areas free before or after it and at the block may change |
| `MemAllocator.NetMemAllocator.RegionMallocWithMap` | src/hcom/common/net_mem_allocator.cpp:266-295 | fails exactly if no free area is long enough; the block goes from the free areas into the map, the rest of its area stays free, and the partition and the sums stay exact; for length 0 the start of an area that stays free is handed out; whatever bytes nodes are made of, no caller's byte changes |
| `MemAllocator.NetMemAllocator.RegionFreeWithMap` | src/hcom/common/net_mem_allocator.cpp:297-325 | succeeds exactly if the address is in the map; the block goes back merged, and the partition and the sums stay exact; whatever bytes nodes are made of, no other caller's byte changes |
| `MemAllocator.NetMemAllocator.RegionMalloc` | src/hcom/common/net_mem_allocator.cpp:220-264 | sets 16 bytes more aside exactly if the rounding left less and the request is not the whole free range; succeeds exactly if a free area holds that; the rest of the area stays free exactly if it has room for 72 bytes and one block; the header is written, all headers are intact and no caller's byte changes, whatever bytes the nodes written in the call are made of |
| `MemAllocator.NetMemAllocator.ReservedLength` | src/hcom/common/net_mem_allocator.cpp:336-359 | the length found for a live block is the one set aside for it |
| `MemAllocator.NetMemAllocator.RegionFree` | src/hcom/common/net_mem_allocator.cpp:327-375 | exactly the bytes set aside for the block go back, merged; all other headers are intact and no other caller's byte changes, whatever bytes the nodes written in the call are made of |
| `MemAllocator.NetMemAllocator.Allocate` | src/hcom/common/net_mem_allocator.h:201-228 | for every 64-bit size and in either mode fails exactly if no free area holds what must be set aside, and hands out nothing exactly if the size rounds up to nothing and an area is free; otherwise at least the size is handed out from one free area, whose rest stays free, with headers exactly if it has room for 72 bytes and one block; less than that is ever lost |
| `MemAllocator.NetMemAllocator.Free` | src/hcom/common/net_mem_allocator.h:230-261 | succeeds exactly for a held address, and then exactly that block goes back; the other results name the reason |
| `MemAllocator.NetMemAllocator.GetSizeByAddressNoAlign` | src/hcom/common/net_mem_allocator.h:263-286 | the size the caller asked for |
| `MemAllocator.NetMemAllocator.GetSizeByAddressAlign` | src/hcom/common/net_mem_allocator.h:288-298 | the block's length, and an error exactly if it is not held |
| `MemAllocator.NetMemAllocator.Write` | src/hcom/common/net_mem_allocator.cpp:220-264 | a caller's write into its block keeps all headers and sums |
| `MemAllocator.NetMemAllocator.EverythingFreed` | src/hcom/common/net_mem_allocator.cpp:297-325 | with aligned addresses, once everything is freed there is one free area of the full size |
| `MemAllocator.NetMemAllocator.AreasPack` | src/hcom/common/net_rb_tree.h:43-76 | every free area's address survives the packed parent word exactly if the range starts at a multiple of 4 |
| `MemAllocator.NodeComesBack` | src/hcom/common/net_mem_allocator.cpp:225-235 | with headers what is set aside holds the node of a block that comes back exactly if the size does not round up to nothing |
| `MemAllocator.SixteenForNothing` | src/hcom/common/net_mem_allocator.cpp:225-235 | with headers a request for nothing sets 16 bytes aside, fewer than a node has |
| `MemRuns.NeverShortExactly` | src/hcom/common/net_mem_allocator.cpp:420-462 | along every run of aligned allocations and returns every free area holds a node exactly if the range is a whole number of blocks or its rest is at least 72 bytes |
| `MemRuns.EightBytesLeft` | src/hcom/common/net_mem_allocator.cpp:437-459 | 8200 bytes in blocks of 4096 are accepted, and two allocations leave an area of 8 bytes |
| `AddrEntry.EntryRoundTrip` | src/hcom/common/net_addr_size_map.h:56-69 | unpacking a packed entry gives address and size back, and no address packs to the empty slot |
| `AddrEntry.RoundTripExactly` | src/hcom/common/net_addr_size_map.h:56-69 | of 64-bit addresses and sizes exactly those of 48 and 16 bits come back |
| `AddrMapInv.PcStable` | src/hcom/common/net_addr_size_map.h:75-168 | what a thread relies on survives any step of a thread on another address |
| `AddrMapProof.SeeksPast` | src/hcom/common/net_addr_size_map.h:120-168 | a search that reads another address in a slot has not passed the place of its own |
| `AddrMapProof.SeeksOn` | src/hcom/common/net_addr_size_map.h:367-379 | at the end of a bucket the place is in a later one, and at the end of the chain the address is not in the map |
| `AddrMapProof.StoreStep` | src/hcom/common/net_addr_size_map.h:75-115 | a successful compare-and-swap into an empty slot puts the address into the map and disturbs nothing else |
| `AddrMapProof.FetchStep` | src/hcom/common/net_addr_size_map.h:120-168 | the compare-and-swap of a removal always hits, takes the address out and returns its size |
| `AddrMapProof.LinkStep` | src/hcom/common/net_addr_size_map.h:326-348 | linking a new bucket under the lock extends one chain and disturbs nothing else |
| `AddrMapRuns.StepRefines` | src/hcom/common/net_addr_size_map.h:287-379 | any enabled step keeps the invariant, touches only buckets that exist, and shows an event that is right for the map |
| `AddrMapRuns.Linearizable` | src/hcom/common/net_addr_size_map.h:287-379 | along every run each event is right for the map made by the events before it: a removal returns the size last put and misses only what is not there |
| `AddrMapRuns.OneSlotEach` | src/hcom/common/net_addr_size_map.h:75-168 | along every run each address in the map sits in exactly one slot, with its size |
| `AddrMapRuns.NothingElse` | src/hcom/common/net_addr_size_map.h:75-168 | along every run a filled slot holds an address in the map |
| `AddrMapRuns.CountWhenQuiescent` | src/hcom/common/net_addr_size_map.h:301-303 | whenever no operation is under way the counter is the number of addresses |
| `AddrMapProgress.RefusedAfter8192` | src/hcom/common/net_addr_size_map.h:296-351 | along every run a Put is refused only with the 8192nd lock its thread releases since the Put was started |
| `AddrMapProgress.OneEventEach` | src/hcom/common/net_addr_size_map.h:287-379 | along every run an operation that ends has stored, fetched, missed or been refused exactly once since it was started |
| `AddrMapProgress.PutSucceedsAlone` | src/hcom/common/net_addr_size_map.h:287-348 | from every reachable state without a locked bucket a Put that runs alone stores its address and size, in finitely many steps and without waiting, whichever new bucket it gets |
| `AddrMapProgress.RemoveSucceedsAlone` | src/hcom/common/net_addr_size_map.h:354-379 | from every reachable state, locked buckets or not, a Remove that runs alone fetches the size last put, or misses an address that is not in the map |
| `PoolState.OneHolder` | src/hcom/common/net_mem_pool_fixed.h:41-48 | every min block is in exactly one of the shared list, one cache, and a user's hands |
| `PoolExpand.CountExactly` | src/hcom/common/net_mem_pool_fixed.h:144 | the 32-bit count is the number of blocks exactly if the super block is shorter than 2^32 of them |
| `FixedPool.NetMemPoolFixed.constructor` | src/hcom/common/net_mem_pool_fixed.cpp:17-21 | a new pool has no blocks and no caches |
| `FixedPool.NetMemPoolFixed.Initialize` | src/hcom/common/net_mem_pool_fixed.cpp:23-101 | succeeds exactly if already initialized, or the options are within the limits of the source and the system has memory; otherwise nothing changes |
| `FixedPool.NetMemPoolFixed.MakeFreeList` | src/hcom/common/net_mem_pool_fixed.h:141-179 | the blocks counted in 32 bits are one chain of whole batches with skip pointers and counts, and behind them an unfinished one of the count modulo the batch size; all blocks are in whole batches exactly if the super block is shorter than 2^32 of them |
| `FixedPool.NetMemPoolFixed.AttachToFreeList` | src/hcom/common/net_mem_pool_fixed.h:184-194 | the batches come first in the shared list and the count grows by theirs; refused exactly if there is nothing to attach |
| `FixedPool.NetMemPoolFixed.ExpandFromOs` | src/hcom/common/net_mem_pool_fixed.cpp:103-156 | a super block of the configured size first and then as large as all before it, so that the total doubles; fails exactly without memory, is refused exactly if its 32-bit count is 0, and otherwise shares exactly the blocks counted, all of them in whole batches exactly if it is shorter than 2^32 blocks; no block changes hands |
| `FixedPool.NetMemPoolFixed.TCAlloc` | src/hcom/common/net_mem_pool_fixed.cpp:158-198 | without shared blocks fails exactly if there is no memory, none counted, or fewer counted than a batch, and else takes the first batch of the doubled pool, inside the new memory; with shared blocks it takes the first batch, exactly if the first block's skip pointer is not null; when it fails no block changes hands |
| `FixedPool.NetMemPoolFixed.AddCache` | src/hcom/common/net_mem_pool_fixed.cpp:230-239 | a new cache is empty |
| `FixedPool.NetMemPoolFixed.Allocate` | src/hcom/common/net_mem_pool_fixed.h:235-262 | the same for a cache without blocks, and a cache with blocks always serves: each result has its exact condition on the cache, the shared list, the memory obtained and the 32-bit count; a block that no user had, inside the new memory after an expansion; nobody else's block changes hands |
| `FixedPool.NetMemPoolFixed.Free` | src/hcom/common/net_mem_pool_fixed.h:267-310 | the block goes to the cache; at twice the step one batch of a step goes to the shared list, so the cache stays below twice the step and its count is its length |
| `FixedPool.NetMemPoolFixed.ReturnBatch` | src/hcom/common/net_mem_pool_fixed.h:287-309 | the first blocks of the cache become the first batch of the shared list, the others stay in order |
| `FixedPool.NetMemPoolFixed.FreeAllToPool` | src/hcom/common/net_mem_pool_fixed.h:318-347 | all blocks of the cache become one batch of the shared list |
| `FixedPool.NetMemPoolFixed.UserWrite` | src/hcom/common/net_mem_pool_fixed.h:235-262 | whatever a user writes into its block disturbs no list |
| `FixedPool.UnfinishedBatch` | src/hcom/common/net_mem_pool_fixed.h:144-162 | accepted options of 255 MB, 24 bytes and 40 blocks: the super block doubled nine times counts 1409286144 blocks, 24 more than whole batches |
| `FixedPool.NoneCounted` | src/hcom/common/net_mem_pool_fixed.h:144 | the default options: a super block of 2^38 bytes counts 0 blocks |
| `CacheTiers.TierFits` | src/hcom/common/net_mem_allocator_cache.cpp:17-29 | for every size up to the largest tier's the chosen tier exists and its blocks are large enough, under both policies |
| `CacheTiers.TierReturns` | src/hcom/common/net_mem_allocator_cache.cpp:17-29 | the tier chosen for a tier's own block size is that tier, under both policies |
| `CacheTiers.PowerTier` | src/hcom/common/net_common.h:186-190 | the power index is the lowest power of two that holds the blocks |
| `CacheTiers.NothingRefused` | src/hcom/common/net_mem_allocator_cache.cpp:17-24 | a request for nothing wraps to a tier that does not exist |
| `CacheWords.RequestIs` | src/hcom/common/net_mem_allocator_cache.h:104 | the bytes asked for, a 32-bit product of 32-bit factors, are the tier's block size modulo 4 GiB |
| `CacheWords.RequestsSuffice` | src/hcom/common/net_mem_allocator_cache.h:77-104 | for every size up to the largest tier's what is asked for is at least the size exactly if the largest tier is below 4 GiB |
| `CacheWords.CountsExact` | src/hcom/common/net_mem_allocator_cache.h:215 | for every tier the KiB added for a block and subtracted for half a full list are what they measure exactly if half a full list of the largest tier is below 4 TiB |
| `CacheWords.TiersComeBack` | src/hcom/common/net_mem_allocator_cache.h:86-97 | every block is found in the map and comes back to its tier exactly if the largest tier is below 4 GiB and 2^16 base blocks and addresses have 48 bits |
| `CacheWords.NothingLost` | src/hcom/common/net_mem_allocator_cache.h:68-229 | requests suffice, the cached size is counted right and blocks come back to their tiers exactly under all these bounds together |
| `CacheWords.FiveForOne` | src/hcom/common/net_mem_allocator_cache.h:77-134 | with 1 GiB blocks and eight tiers, 5 GiB makes the code ask for 1 GiB and remember one block, and the tier of 4 GiB asks for nothing |
| `CacheWords.HalfUncounted` | src/hcom/common/net_mem_allocator_cache.h:215 | with one tier of 1 GiB blocks, 4096 to a list, nothing is subtracted when half of a full list goes back |
| `AllocatorCache.NetAllocatorCache.constructor` | src/hcom/common/net_mem_allocator_cache.cpp:31-126 | under all options the code accepts: empty tiers, and all blocks of the allocator are callers' |
| `AllocatorCache.NetAllocatorCache.Conserved` | src/hcom/common/net_mem_allocator_cache.h:237-241 | under exact options cached plus free size plus all outstanding blocks is the managed size |
| `AllocatorCache.NetAllocatorCache.Pop` | src/hcom/common/net_mem_allocator_cache.h:86-97 | the first block of a tier goes to a caller who did not have it, with the size its map entry keeps; under exact options it has the tier's size |
| `AllocatorCache.NetAllocatorCache.Fill` | src/hcom/common/net_mem_allocator_cache.h:100-123 | an empty tier gets the configured number of blocks, or as many as until no free area holds another, each as long as the 32-bit request; callers' blocks do not change |
| `AllocatorCache.NetAllocatorCache.Allocate` | src/hcom/common/net_mem_allocator_cache.h:68-146 | succeeds exactly if the tier's list has a block or a free area holds what the code asks for; a block filled in is as long as that request, under exact options at least the size; for every 64-bit size the code hands out nothing exactly if what it asks for is nothing, the tier's list is empty and an area is free |
| `AllocatorCache.NetAllocatorCache.Push` | src/hcom/common/net_mem_allocator_cache.h:185-199 | the block goes to the front of the tier its record names, under exact options the one whose size it has |
| `AllocatorCache.NetAllocatorCache.Cut` | src/hcom/common/net_mem_allocator_cache.h:206-218 | of twice the configured number of blocks the first half stays, in order, and the second is unlinked; under exact options the cached size shrinks by what that half measures |
| `AllocatorCache.NetAllocatorCache.ReturnAll` | src/hcom/common/net_mem_allocator_cache.h:220-226 | every unlinked block goes back to the allocator |
| `AllocatorCache.NetAllocatorCache.Free` | src/hcom/common/net_mem_allocator_cache.h:148-229 | a recorded block goes to the tier its record names, whose list is one longer, or was full and keeps the first half, while the other lists stay; any other outstanding block goes to the allocator; under exact options that is the block's own tier and the call succeeds exactly for an outstanding block |
| `CrcTable.TableExact` | src/hcom/common/net_crc32.cpp:207-273 | every table entry is eight division steps of its index |
| `Crc32.LookUpExact` | src/hcom/common/net_crc32.cpp:280 | looking one byte up is eight division steps |
| `Crc32.NetCrc32C` | src/hcom/common/net_crc32.cpp:275-285 | the table-driven checksum is the bit-by-bit one, for every buffer |
| `CrcReference.SameChecksum` | src/hcom/common/net_crc32.cpp:206-285 | the checksum is the one section 12.1 of RFC 3720 defines by division with 0x1EDC6F41 |
| `CrcBursts.BurstDetected` | src/hcom/common/net_crc32.cpp:275-285 | buffers of equal length that differ only within four consecutive bytes have different checksums |
| `CrcHardware.InstructionFolds` | src/hcom/common/net_crc32.cpp:112-176 | one instruction on a word of up to eight bytes does what its bytes do one by one |
| `CrcHardware.CalcCrcWords` | src/hcom/common/net_crc32.cpp:112-176 | a run of words of one width does what its bytes do |
| `CrcHardware.NetCrc32CHardware` | src/hcom/common/net_crc32.cpp:178-203 | the checksum in words of eight, four, two and one bytes is the bit-by-bit one, the empty buffer's included |
| `CrcHardware.NetCrc32CAarch64` | src/hcom/common/net_crc32.cpp:69-106 | the aarch64 checksum is the bit-by-bit one exactly if the buffer is empty or reaches the next multiple of 4, and otherwise reads behind the buffer |
| `CrcHardware.OneByte` | src/hcom/common/net_crc32.cpp:82-98 | one byte at an address that is 1 modulo 4: three bytes are read and the length left wraps to 2^32 - 2 |
| `RingBuffer.NetRingBuffer.constructor` | src/hcom/hcom_utils.h:170-206 | the buffer is empty |
| `RingBuffer.NetRingBuffer.PushBack` | src/hcom/hcom_utils.h:218-236 | appends the item exactly if there is room |
| `RingBuffer.NetRingBuffer.InterruptablePushBack` | src/hcom/hcom_utils.h:238-262 | appends the item exactly if there is room and no interruption, and reports the interruption only when there is room |
| `RingBuffer.NetRingBuffer.PushFront` | src/hcom/hcom_utils.h:264-285 | puts the item in front exactly if there is room |
| `RingBuffer.NetRingBuffer.PopFront` | src/hcom/hcom_utils.h:287-305 | takes the first item exactly if there is one |
| `RingBuffer.NetRingBuffer.GetFront` | src/hcom/hcom_utils.h:307-317 | returns the first item exactly if there is one |
| `RingBuffer.NetRingBuffer.PopFrontN` | src/hcom/hcom_utils.h:319-341 | takes the first n items in order exactly if there are that many |
| `RingBuffer.NetRingBuffer.Interrupt` | src/hcom/hcom_utils.h:359-364 | the items stay |
| `ExecutorShutdown.StepKeeps` | src/hcom/hcom_utils.h:406-436 | every step keeps items at most tokens plus posts owed plus woken consumers, and every worker's STOP accounted for |
| `ExecutorShutdown.NoLostWakeup` | src/hcom/hcom_utils.h:406-436 | in no run do all workers sleep, without tokens or posts owed, while the queue holds an item |
| `ExecutorShutdown.ShutdownStops` | src/hcom/common/net_execution_service.cpp:52-119 | when nothing can move any more, the workers left are as many as STOPs were refused |
| `ExecutorShutdown.RunsEnd` | src/hcom/common/net_execution_service.cpp:52-140 | without new tasks every run ends within a number of steps computed from its first state |
| `ExecutorShutdown.StuckExactly` | src/hcom/common/net_execution_service.cpp:93-119 | a state is stuck exactly if only a push of a task is possible |
| `ExecutorShutdown.StopsExactly` | src/hcom/common/net_execution_service.cpp:52-119 | once nobody pushes tasks any more every run stops every worker exactly if the queue has room for all STOPs to come |
| `ExecutorShutdown.ShutdownExactly` | src/hcom/common/net_execution_service.cpp:52-119 | the same for every reachable state of every run |
| `ExecutorShutdown.NeverStops` | src/hcom/common/net_execution_service.cpp:52-71 | with two workers and room for one task a run exists in which one worker waits for ever, and the join with it |
| `ExecutorTasks.TakenInOrder` | src/hcom/hcom_utils.h:406-436 | along every run tasks pushed while the queue had room are, in that order, those workers have taken and those still in the queue |
| `ExecutorTasks.EachOnce` | src/hcom/common/net_execution_service.cpp:93-119 | along every run each task accepted is finished, in a worker's hands or in the queue, once, and nothing else is |
| `ExecutorTasks.StopsOvertake` | src/hcom/hcom_utils.h:415-422 | along every run all STOPs are in front of all tasks, so a worker that pops while one is there takes it |
| `ExecutorTasks.LeftInQueue` | src/hcom/common/net_execution_service.cpp:52-119 | where nothing can move any more tasks accepted and not finished are those in the queue, and there are none while a worker is left |
| `ExecutorTasks.TaskLeft` | src/hcom/common/net_execution_service.cpp:52-71 | any task pushed before the STOP of the only worker can be left unfinished |
| `Splice.SyncSpliceMessage` | src/hcom/hcom_split.cpp:25-126 | a plain message first is returned as it is; otherwise the last reception used decides, and all before it were fragments that left the message incomplete: a failed receive is passed on, a short fragment or a plain message between fragments breaks off, a fragment is invalid exactly if it states a total of 2 GiB or more, or another total than the fragment before it without starting at 0, or its bytes begin or end behind the total, and the message is complete exactly with a fragment that reaches the total; every byte is then the last one written there, or 0 |
| `Splice.UsedExactly` | src/hcom/hcom_split.cpp:25-126 | the outcome is that of the receptions used, and fewer leave it open |
| `Splice.TakenBytes` | src/hcom/hcom_split.cpp:46-104 | a fragment that is taken writes its own range, fills what it makes longer with 0, and changes no other byte |
| `Splice.WriterIs` | src/hcom/hcom_split.cpp:46-104 | the writer of a position is the last fragment that wrote it without a later one ending before it |
| `Splice.SplicedBytes` | src/hcom/hcom_split.cpp:45-125 | whatever arrives, a spliced message has the length its last fragment received states, below 2 GiB, and every byte is the last one written there, or 0 if none is left |
| `Splice.SentExactly` | src/hcom/hcom_split.cpp:97-104 | a message whose fragments were received comes back exactly if it has 0 wherever none of them wrote |
| `Splice.WholeExactly` | src/hcom/hcom_split.cpp:97-104 | the result is the message sent, whichever the fragments belong to, exactly if their ranges cover it |
| `Splice.GapUnnoticed` | src/hcom/hcom_split.cpp:97-104 | bytes 0 and 2 of three arrive, and the message counts as complete with 0 between them |
| `Splice.OneTaken` | src/hcom/hcom_split.cpp:46-104 | a fragment in its turn extends the part of the message the accumulator holds |
| `Splice.SplicedWhole` | src/hcom/hcom_split.cpp:45-125 | every message below 2 GiB, cut into any non-empty pieces and received in order, comes back whole |
| `TimerList.SerTimerListHeader.constructor` | src/hcom/service_v2/service_callback.h:232-234 | the list is empty |
| `TimerList.SerTimerListHeader.AddTimerCtx` | src/hcom/service_v2/service_callback.h:240-257 | the timer is first, linked both ways, with one more reference that is the list's; other references stay |
| `TimerList.SerTimerListHeader.RemoveTimerCtx` | src/hcom/service_v2/service_callback.h:263-288 | a listed timer leaves and loses exactly the list's reference; any other is left alone, however often this is repeated |
| `TimerList.SerTimerListHeader.GetTimerCtx` | src/hcom/service_v2/service_callback.h:294-315 | the caller gets every timer in list order, with its reference; the list is empty |
| `Text.SplitStr` | src/hcom/common/net_common.h:193-211 | the parts between separators, an empty part at the end dropped |
| `Text.SplitJoin` | src/hcom/common/net_common.h:193-211 | splitting joined items gives the items back |
| `Text.SplitExactly` | src/hcom/common/net_common.h:193-211 | for every text no part holds a separator, and joined again the parts are the text, but for one separator at its very end |
| `Text.StolToString` | src/hcom/common/net_common.h:225-236 | parsing a printed number gives the number back |
| `Text.StolExactly` | src/hcom/common/net_common.h:225-236 | a text parses to n exactly if it is space, an optional sign and digits that denote n, n is a 64-bit number, and zero is written "0" |
| `WorkerGroups.UnParseWorkerGroups` | src/hcom/hcom.cpp:1572-1582 | the thread counts, joined by commas |
| `WorkerGroups.UnParseWorkerGroupsCpus` | src/hcom/hcom.cpp:1584-1599 | the CPU ranges, joined by commas |
| `WorkerGroups.ParseWorkersGroups` | src/hcom/common/net_common.h:569-610 | accepts exactly up to 128 counts of 1 to 128, and takes the empty string for one worker |
| `WorkerGroups.ParseWorkerGroupsCpus` | src/hcom/common/net_common.h:629-691 | accepts exactly up to 128 items that are ranges below 612 or "na", and keeps eight bits of start and count |
| `WorkerGroups.FinalizeWorkerGroupCpus` | src/hcom/common/net_common.h:703-754 | binds worker j of a group to its range's first CPU plus j modulo the range's count, and workers without a range to none, exactly if every range fits its group; divides by zero exactly if the first range that cannot be bound has no CPUs for a group with workers and is not refused |
| `WorkerRoundTrip.GroupExactly` | src/hcom/common/net_common.h:687-746 | a group's workers get its CPUs exactly if its first CPU is below 256 and not 128 |
| `WorkerRoundTrip.RoundTrip` | src/hcom/hcom.cpp:1572-1599 | printing, parsing back and flattening succeeds, and every worker gets its group's CPU exactly if no first CPU is 128 or beyond 255 |
| `WorkerRoundTrip.Cpu128Lost` | src/hcom/common/net_common.h:731-734 | CPU 128 is accepted and read as none |
| `WorkerRoundTrip.CountLostExactly` | src/hcom/common/net_common.h:629-691 | an accepted item becomes a range without CPUs exactly if it has 256 or 512 of them and does not start at 128 or 384 |
| `WorkerRoundTrip.DividesExactly` | src/hcom/common/net_common.h:703-754 | for all accepted strings the flattening divides by zero exactly if CPUs may be shared and the first range that cannot be bound lost its count |
| `WorkerRoundTrip.CountLost` | src/hcom/common/net_common.h:687 | "0-255" is accepted with a count of 0, and with one worker and shared CPUs the flattening divides by it |

## Left out

- PgTable.NetPgTable.Insert: a failed insertion restores the table up to the addresses of directories, because releasing and allocating a directory may give another address.
- PgTable.NetPgTable.SearchRange: only the table's own range, as Cleanup asks for it; other ranges would add cases no caller in the table uses.
- PgTable.NetPgTable.SearchSubtree: only subtrees inside the searched range, which the table's own range makes all of them.
- PgTable.NetPgTable.DirAlloc: always succeeds; running out of memory is not modelled, nor is the packing of entry kinds into pointer bits.
- RbTree.NetRbTree.Insert: colour and parent are separate fields; the packed word keeps them exactly for addresses that are multiples of 4 (`RbPacking.ParentComesBack`).
- MemRegion.MemoryRegion.MemoryAreaInsert: only for blocks that overlap no free area, which the allocator's callers guarantee; for others the code reports an error or corrupts the lists depending on the descent.
- MemAllocator.NetMemAllocator.Initialize: the managed range is below 2^44 bytes, beyond which the 32-bit list index wraps (`MemAreas.ReachedExactly`, `MemAreas.InsideExactly`), and with aligned addresses it leaves no rest of 1 to 71 bytes, with which an area too short for its own node is left (`MemRuns.NeverShortExactly`).
- MemAllocator.NetMemAllocator.Allocate: where the code hands out an address that stays free, or one without room for its node, the result says so and the model's state stays as it was.
- MemAllocator.NetMemAllocator.RegionMalloc: the free size is exact only up to the rest of areas handed out whole, which the code does not count.
- MemAllocator.NetMemAllocator.Free: with headers, only for blocks that are held, since for any other address the code reads arbitrary bytes as a header, and below 4 GiB.
- MemAllocator.NetMemAllocator.RegionFree: as for Free; from 4 GiB on another length goes back, exactly as `MemHeader.RecoversBelow4GiB` says.
- MemAllocator.NetMemAllocator.ReservedLength: as for Free.
- MemAllocator.NetMemAllocator.GetSizeByAddressNoAlign: inside the range only for blocks that are held, for the same reason.
- AddrMapRuns.Linearizable: bucket memory is always obtained, the counter does not wrap, and reading the next bucket twice is one read followed by another.
- FixedPool.NetMemPoolFixed.TCAlloc: one whole operation; the wait for a concurrent expansion is not modelled, and where the code follows a null pointer the model stops.
- FixedPool.NetMemPoolFixed.ExpandFromOs: the 64-bit total does not wrap.
- AllocatorCache.NetAllocatorCache.constructor: aligned addresses only, all below 2^48, beyond which the map loses entries (`CacheWords.TiersComeBack`).
- AllocatorCache.NetAllocatorCache.Allocate: recording a size always succeeds; where the code hands out nothing the model stops, as the allocator does.
- AllocatorCache.NetAllocatorCache.Free: callers do not free blocks that are in a tier's list.
- CrcHardware.CalcCrcWords: the instruction is modelled as its definition, eight division steps for each byte of the word, for both processors.
- ExecutorShutdown.StopsExactly: what tasks do and exceptions they throw are not modelled; a task ends.
- RingBuffer.NetRingBuffer.constructor: construction and initialization are one step, which the code refuses for capacity 0; here such a buffer is always full.
- Splice.SyncSpliceMessage: the checked copy refuses an empty destination, one beyond 2 GiB, and more bytes than fit; the end of the input stands for a receive that never returns.
- TimerList.SerTimerListHeader.AddTimerCtx: each operation is one step, and a timer is not added while it is in the list.
- WorkerGroups.FinalizeWorkerGroupCpus: totals do not wrap at 16 bits, which 128 groups of 128 cannot reach.
- Fragment sending, the asynchronous splice and message identifiers: the receiving loop does not compare identifiers either.
- The bucketed list with round-robin buckets: it would add only list members of the kind already here.
- Drivers, endpoints, sockets, TLS, multicast, statistics, logging, option tables and memory protection of free areas.
