# Device memory, address spaces and MMU of the GPU driver

A Dafny model of four connected pieces and the theorems that join them: the block allocator
of device memory, the three-level Sv39 page tables kept in it, the allocator of virtual
ranges in front of them, and the hardware walker that reads the same tables.

| file | what it holds |
|---|---|
| `Bits.dfy`, `Sv39.dfy` | bit operators on words; the entry and address layout of Sv39, and the arithmetic it amounts to |
| `Words.dfy`, `Phys.dfy` | multi-byte values; physical memory as a value: backed extents, their bytes, 64-bit words, free gaps |
| `BlockList.dfy` | the sorted list of blocks with its roving insertion cursor (class `PhysicalMemory`), proved against `Phys` |
| `PageTable.dfy`, `ForestChanges.dfy` | table walks; the forest invariant (every table its own page, none shared, leaves only into data blocks) and what each elementary change does to it |
| `Allocation.dfy` | `allocate` as a function that redoes all lookups per page, and its laws on every outcome |
| `Capacity.dfy` | when `allocate` succeeds, and how far it gets: free pages against missing tables |
| `VirtualMemory.dfy` | what a task sees at a virtual address; virtual writes byte by byte |
| `Pruning.dfy`, `TearDown.dfy` | what `clean_pt` and `clean_task` remove |
| `DeviceMemory.dfy` | class `Memory`: `create_root_pt`, `allocate`, `convert`, `read_virt`, `write_virt`, `clean_pt`, `clean_task` |
| `AddressRanges.dfy`, `AddressManager.dfy` | `addr::Manager`: placement as a function on ranges, and the linked items (classes `Item`, `Manager`) |
| `Tasks.dfy`, `Runs.dfy`, `DeviceDriver.dfy` | the driver's calls (class `Driver`), their effect on what every task sees, and theorems over whole runs of calls |
| `Arbiters.dfy`, `Mmu.dfy` | the registers of the MMU and one clock cycle |
| `MmuInvariant.dfy`, `MmuCycle.dfy`, `MmuWalkers.dfy` | where each request in flight is, and why a cycle keeps it so |
| `MmuRuns.dfy` | delivery and reads over all runs from reset, with a memory that changes |
| `MmuProgress.dfy`, `MmuLatency.dfy` | no stuck state, draining, and under continuing traffic a bound from presenting a request to its answer |
| `WalkerAndTables.dfy` | the hardware's answers against the software's `convert` |
| `DriverAndWalker.dfy` | the driver and the MMU at work together |
| `Options.dfy`, `Sequences.dfy` | a value that may be missing; a sequence with one more element |

How the model reads:

- Addresses and sizes are unbounded numbers; fields, masks and shifts are written out with their
  widths, and `Sv39.dfy` proves the bit expressions of the source equal to the arithmetic used elsewhere.
- A `VT_ERROR` (it throws) is a failure result. The state that a throw leaves behind is part of the contract.
- Memory is a value `Phys(range, ext, data)`. Each class keeps the value it represents in a ghost field or
  function, and its methods are proved to change it as the functions of `Phys`, `Allocation` and
  `VirtualMemory` say. The lemmas are about those functions.
- A ghost map gives every backed block its kind: a table of one root at one depth for one prefix, or data
  that one root has mapped at one address. `PageTable.Forest` ties it to the words in memory.
- `VirtualMemory.View` is what a task sees: the byte at a virtual address, or nothing. Isolation, fresh
  zeroed buffers, read-after-write and tear-down are all stated on it.
- The MMU is a record of its registers; `Mmu.Next` is one clock edge, every register computed from the old
  state. The environment chooses requests, when memory is ready, and which outstanding read is answered, in
  any order. It keeps four rules: at most one request in flight per 2-bit source; each accepted read is
  answered at most once, with the word at its address and its own 3-bit source; tables do not change during
  a walk; the response side stays ready. The grant registers, which have no reset, start arbitrary.
- Every cycle of a run has its own memory. The rule on tables (`MmuRuns.Steady`) is that from a cycle to the
  next the three words of each walk in flight are the same; all else may change. The logs of a run record, for
  each request, what its walk comes to in the memory it was accepted in. `DriverAndWalker` shows that every
  call of the driver, `clean_pt` and `clean_task` of other tasks keep this rule for every mapped address. A call
  is one step between two cycles there.
- A run of driver calls (`Runs`) may contain `clean_pt` and `clean_task` (`Tasks.Op`). A task is forgotten after
  its `clean_task`. Removing the block under the insertion cursor leaves the cursor dangling, and the contracts of
  the removing methods say exactly when that is so (`BlockList.CursorStays`). Whether the cursor is live is not
  part of the states of `Runs`: an insertion in a run stands for one with a live cursor, wherever it is.
- Loops that the source nests are separate methods here, and a loop that the source repeats per segment is
  one method.

Where the code does not keep what its callers may expect, the model follows the code:

- `allocMemory` can place a READ_ONLY buffer behind a KERNEL_MEM head, and a READ_WRITE buffer between two
  KERNEL_MEM buffers. `AddressRanges.PlaceIsGood` gives the exact condition under which it does not;
  `AddressRanges.UnsafePlaces` says where it puts them, and `AddressRanges.UnsafeCalls` has two such calls.
- A list with exactly one KERNEL_MEM item and no READ_WRITE item refuses every READ_WRITE request
  (`AddressRanges.FailsWhenFull`); with two or more it never refuses one, and places it badly
  (`AddressRanges.TwoKernelMemNeverRefuse`).
- `allocate` that places the block but finds no free page for a table of its first page keeps a block that no
  page maps, and `clean_task` does not find it; the model keeps it as data of nobody (`TearDown.Orphan`). The
  other ways to run out of memory lose nothing: without a gap for the block nothing is taken, and once the first
  page is mapped the block is found through it. `Capacity.Strands` is the condition, in free pages and missing
  tables before the call; `Runs.Conservation` holds exactly without such a call, and `Runs.LosingRun` has one.
- `allocate` on a range that is partly mapped keeps the old mappings and still reports success
  (`Allocation.AllocateMapsRange` is an equivalence for that reason), and when it runs out of pages midway it
  leaves the pages mapped so far, and the block, in place.
- `insert` checks for overlap only against the block under the cursor. It inserts and leaves the list sorted
  exactly when the range was free; a refusal leaves the list as it was (`BlockList.PhysicalMemory.Insert`).
- A walker clears the entry under `deq_ptr` and sends the one that the arbiter chose. They are the same
  whatever was granted last exactly when at most one entry is ready (`Arbiters.PointersAgree`), which holds in
  every reachable state under the rules above. Where they differ a response is lost and another one
  sent twice (`MmuWalkers.LostResponse`).

## Model

| member | source | states |
|---|---|---|
| `Sv39.VAextractMeaning` | src/device/sv39.h:51-58 | the shift-and-mask index of each level is the base-512 digit of the page number |
| `Sv39.PTE2PAMeaning` | src/device/sv39.h:65-67 | masking bits 53 to 10 and shifting left by two gives the page address that those bits number |
| `Sv39.SetPTEMeaning` | src/device/sv39.h:68-70 | the masked, shifted address with flags or-ed in is their sum in separate fields |
| `Sv39.PteRoundTrip` | src/device/sv39.h:65-70 | an entry made for a page address and flags gives the address back, fits in 64 bits and keeps the V bit |
| `Sv39.JoinOffset` | src/device/memory.h:123 | or-ing the page offset into a page address adds it |
| `Sv39.VAcheckMeaning` | src/device/sv39.h:59-64 | the two bounds accept exactly the addresses whose bits 63 to 38 are all equal |
| `Words.DecodeEncode` | src/device/page.h:209-254 | a value stored as bytes and loaded again is the same value |
| `Words.LittleEndian` | src/device/page.h:209-254 | the byte at the lowest address is the lowest one of the word |
| `Phys.UsableIsLowestGap` | src/device/page.h:270-285 | the first-fit result is the lowest page-aligned gap, and 0 exactly when there is none |
| `Phys.InsertValid` | src/device/page.h:156-181 | adding a block in a gap keeps blocks disjoint, in range, backed and page-aligned |
| `Phys.EraseValid` | src/device/page.h:182-192 | so does removing one |
| `Phys.PokeValid` | src/device/page.h:194-207 | so does writing, which changes no extent |
| `Phys.WordInsert` | src/device/page.h:30-36 | a new block reads as 0 everywhere, like addresses without a block, so no word changes |
| `Phys.WordErase` | src/device/page.h:182-192 | after removing a block the words inside it read as 0 and all others as before |
| `Phys.WordPokeApart` | src/device/page.h:194-213 | a write leaves every word that it does not overlap |
| `Phys.WordPokeHere` | src/device/page.h:209-254 | a word written inside a block is read back |
| `BlockList.PhysicalMemory.constructor` | src/device/page.h:136-143 | range capped and rounded to pages; the reserved low block and the sentinel around an empty memory, which is valid exactly if the sentinel is above the reserved block |
| `BlockList.PhysicalMemory.ReadData` | src/device/page.h:231-244 | succeeds exactly if the range lies in one backed block, and then returns its bytes |
| `BlockList.PhysicalMemory.ReadValue` | src/device/page.h:246-254 | the little-endian word, or 0 when it cannot be read |
| `BlockList.PhysicalMemory.WriteData` | src/device/page.h:194-207 | writes exactly the range if it lies in one backed block, and otherwise changes nothing |
| `BlockList.PhysicalMemory.WriteValue` | src/device/page.h:209-213 | the same for a word |
| `BlockList.PhysicalMemory.Usable` | src/device/page.h:270-285 | the list scan returns a gap of the rounded size, on paged memory the lowest one, 0 if there is none |
| `BlockList.PhysicalMemory.Length` | src/device/page.h:287-296 | the size of the block that holds the address, 0 if none does |
| `BlockList.PhysicalMemory.Insert` | src/device/page.h:156-181 | from any live cursor: a free range is inserted where a scan from the head would put it; the list comes out sorted exactly if the range was free; a refusal changes nothing; where the cursor ends, free or not |
| `BlockList.PhysicalMemory.Remove` | src/device/page.h:182-192 | erases the block that holds the address, with its bytes and nothing else, or reports that there is none; the cursor stays on its block exactly if that is still there |
| `BlockList.InsertLands` | src/device/page.h:156-181 | which inserts are refused, and between which blocks the others land, for ranges that are free and for those that are not; the cursor ends on the neighbour it has reached |
| `BlockList.SpliceIsFromHead` | src/device/page.h:75-80 | the position next to the cursor is the one that a scan from the head picks |
| `BlockList.ScanIsFromHead` | src/device/page.h:156-181 | from every cursor, the scan for a free range ends where a scan from the head does |
| `BlockList.CursorDoesNotMatter` | src/device/page.h:156-181 | lists with the same blocks and different live cursors stay the same under every sequence of inserts of free ranges |
| `BlockList.CursorRemoved` | src/device/page.h:182-192 | after an erase the cursor is on the block it was on, or dangles if that is the one erased |
| `BlockList.SortedSplice` | src/device/page.h:156-181 | a list with a block spliced between its neighbours is sorted exactly if the block fits |
| `PageTable.ConvertIsWalk` | src/device/memory.h:110-124 | the three early zero returns agree with a plain three-read walk, because the reserved block reads as 0 |
| `PageTable.WalkFindsTable` | src/device/memory.h:111-118 | up to two reads find nothing or the one table of that root, depth and prefix |
| `PageTable.TranslateFindsData` | src/device/memory.h:119-123 | a full walk finds nothing or a page of a data block that this root mapped at this address |
| `PageTable.TranslateInjective` | src/device/memory.h:45-124 | no physical page is mapped twice, by one root or by two |
| `PageTable.WalkAfter` | src/device/memory.h:65-67 | rewriting one entry that leads to no leaf moves that node of the walk and no other |
| `ForestChanges.EntryInUse` | src/device/memory.h:58-68 | an entry has V set exactly if it is nonzero, exactly if it names a page; above the last level that page is the table of its prefix |
| `ForestChanges.EntryFlags` | src/device/memory.h:60-104 | the flags of an entry in use are R, W, X and V (15) in a last-level table and V alone (1) above it, and nothing else stands beside the page number |
| `ForestChanges.InsertForest` | src/device/memory.h:39-52 | a data block or a new root table leaves every translation and table as it was |
| `ForestChanges.LinkForest` | src/device/memory.h:60-67 | a fresh table page hung into an unused entry keeps the forest, all translations and all other entries |
| `ForestChanges.LeafForest` | src/device/memory.h:97-104 | filling an unused last-level entry maps that one page and nothing else |
| `ForestChanges.WriteDataForest` | src/device/memory.h:177-184 | writing inside a data block changes no table and no translation |
| `ForestChanges.UnlinkForest` | src/device/memory.h:242-245 | removing an empty table and clearing its entry keeps the forest and all translations |
| `ForestChanges.LinkKeepsData` | src/device/memory.h:60-67 | linking a table changes no data byte |
| `ForestChanges.UnlinkKeepsData` | src/device/memory.h:242-245 | nor does removing one |
| `Allocation.EnsureChildForest` | src/device/memory.h:58-69 | on success the entry is in use and leads to the table of its prefix; on every outcome translations, data and all other entries are kept |
| `Allocation.MapPageForest` | src/device/memory.h:54-106 | one turn of the loop maps its page if it was unmapped, keeps everything else, and leaves all three entries in use |
| `Allocation.MapPagesForest` | src/device/memory.h:53-106 | how many pages were mapped when the loop stopped, for every outcome |
| `Allocation.AllocateForest` | src/device/memory.h:45-108 | on every outcome: old translations, tables and data bytes are kept, new blocks are one zeroed data block and tables of this root; success exactly if all pages were done |
| `Allocation.AllocateMapsRange` | src/device/memory.h:45-124 | after success, converting v + k gives p + k for the whole rounded range exactly if none of it was mapped before |
| `Allocation.NextPageIndices` | src/device/memory.h:56-95 | from page to page every lower table index changes whenever a higher one does |
| `Allocation.MapPagesStops` | src/device/memory.h:61-63 | after a failure nothing more happens |
| `Capacity.FreeAfterInsert` | src/device/page.h:156-181 | a new block takes as many free pages as it has, and no other |
| `Capacity.AllFree` | src/device/page.h:270-285 | in memory without blocks every page above the reserved range is free, and the first one comes first |
| `Capacity.EnsureChildCount` | src/device/memory.h:58-68 | a level step with its table present changes nothing; otherwise it succeeds exactly if a page is free, and takes one, the lowest |
| `Capacity.MapPageCount` | src/device/memory.h:54-106 | one turn of the loop succeeds exactly if there is a free page for each table that its page lacks, and takes just those |
| `Capacity.MapPagesCount` | src/device/memory.h:53-106 | the same for any number of pages, each shared table counted once |
| `Capacity.AllocateReaches` | src/device/memory.h:45-108 | the loop gets as far as the missing tables find free pages, besides those of the block |
| `Capacity.AllocateSucceeds` | src/device/memory.h:45-108 | allocate succeeds exactly if there is a gap for the block and, besides its pages, a free one for each table that the range lacks |
| `Capacity.StrandsWithoutPages` | src/device/memory.h:45-108 | that condition for the first page fails exactly if allocate takes the block and maps no page of it |
| `VirtualMemory.PageMask` | src/device/memory.h:136-142 | the mask of act_virt keeps the 27-bit page number |
| `VirtualMemory.ConvertInjective` | src/device/memory.h:110-124 | no byte of memory shows up at two virtual addresses, of one task or of two |
| `VirtualMemory.ChunkIsBytes` | src/device/memory.h:135-148 | one write inside a page equals writing its bytes one by one through convert |
| `VirtualMemory.PutBytesForest` | src/device/memory.h:177-184 | virtual writes change no translation and no extent |
| `VirtualMemory.PutBytesView` | src/device/memory.h:126-184 | after a virtual write the writing task sees the new bytes at the mapped addresses of the range; nobody sees any other change |
| `VirtualMemory.WriteThenRead` | src/device/memory.h:152-184 | on a mapped range a read returns what was written |
| `VirtualMemory.StopsAtPage` | src/device/memory.h:135-147 | a transfer that meets an unmapped page has done exactly the pages before it |
| `VirtualMemory.AllocateView` | src/device/memory.h:45-108 | a successful allocation of an unmapped range adds zeros at that range to one task's view and changes no view anywhere else |
| `VirtualMemory.AllocateKeepsView` | src/device/memory.h:45-108 | successful or not, it keeps every mapped byte of every task |
| `VirtualMemory.CreateView` | src/device/memory.h:39-44 | a new address space is empty and no other view changes |
| `Pruning.UnlinkPrunes` | src/device/memory.h:242-245 | one removal takes a table under which nothing is mapped |
| `Pruning.AllDone` | src/device/memory.h:222-256 | when all rows are done every table of the task but its root has an entry in use and a leaf below |
| `Pruning.PrunedViews` | src/device/memory.h:222-256 | no task can tell by translations or bytes that clean_pt has run |
| `TearDown.OwnedIsTask` | src/device/memory.h:258-283 | what the nested loops reach is exactly the tables of the task and the data blocks that its pages lie in |
| `TearDown.HolderErased` | src/device/page.h:182-192 | removing through the second leaf of a block that is gone removes nothing more |
| `TearDown.TaskGone` | src/device/memory.h:258-283 | without those blocks memory is still a forest, and the other roots' translations and bytes are kept |
| `TearDown.OrphansForest` | src/device/memory.h:258-283 | memory is still a forest when data that no page of the task mapped counts as data of nobody |
| `TearDown.TornDownViews` | src/device/memory.h:258-283 | no other task can tell that clean_task has run |
| `DeviceMemory.Memory.constructor` | src/device/memory.h:34-36 | an empty memory of the capped, page-rounded range, valid exactly if that reaches past the reserved block |
| `DeviceMemory.Memory.CreateRootPt` | src/device/memory.h:39-44 | the first free page becomes a root table; without one nothing changes |
| `DeviceMemory.Memory.EnsureTable` | src/device/memory.h:58-68 | the same memory and outcome as `EnsureChild` |
| `DeviceMemory.Memory.FillEntry` | src/device/memory.h:97-104 | the same memory as `FillLeaf`, whose flags `ForestChanges.EntryFlags` gives |
| `DeviceMemory.Memory.MapOnePage` | src/device/memory.h:54-106 | with cached indices, the same memory and outcome as redoing the three lookups |
| `DeviceMemory.CachedLevels` | src/device/memory.h:53-95 | every level that the cache skips would have done nothing |
| `DeviceMemory.MapPageInPage` | src/device/memory.h:53-106 | one turn of the loop does not depend on the offset of its address in the page |
| `DeviceMemory.Memory.Allocate` | src/device/memory.h:45-108 | the same memory and result as looking up every table for every page, whatever the offset of the address in its page, hence the laws of `Allocation` |
| `DeviceMemory.Memory.Convert` | src/device/memory.h:110-124 | the translation, 0 if unmapped |
| `DeviceMemory.Memory.ReadVirt` | src/device/memory.h:127-158 | reads the mapped prefix of the range and no more, byte by byte what the task sees there; success exactly if that is all of it |
| `DeviceMemory.Memory.ReadChunk` | src/device/memory.h:154-157 | one chunk of it |
| `DeviceMemory.Memory.WriteVirt` | src/device/memory.h:127-184 | the same memory as writing the mapped prefix byte by byte; success exactly if that is all of it |
| `DeviceMemory.Memory.WriteChunk` | src/device/memory.h:181-183 | one chunk of it |
| `DeviceMemory.ChunkStep` | src/device/memory.h:136-142 | the page comparison splits the range at page boundaries, so no chunk crosses one |
| `DeviceMemory.Memory.IsEmptyTable` | src/device/memory.h:231-241 | whether all 512 entries are 0 |
| `DeviceMemory.Memory.Prune` | src/device/memory.h:242-245 | one empty table removed and its entry cleared; the cursor stays on its block unless that is the one removed |
| `DeviceMemory.Memory.CleanChildren` | src/device/memory.h:226-249 | the children of one table pruned, and whether any is left; the cursor as above |
| `DeviceMemory.Memory.CleanPt` | src/device/memory.h:222-256 | exactly the tables of the task under which nothing is mapped go; no translation or data byte changes; no empty table is left; a second run changes nothing; the cursor stays live exactly if its block is still there |
| `DeviceMemory.Memory.ClearLeaves` | src/device/memory.h:266-277 | the data blocks behind one last-level table go; the cursor stays live exactly if its block is still there |
| `DeviceMemory.Memory.ClearChildren` | src/device/memory.h:263-278 | and the tables of the middle level with theirs; likewise the cursor |
| `DeviceMemory.Memory.CleanTask` | src/device/memory.h:258-283 | exactly the tables of the task, its root and the data blocks it maps go; other blocks, bytes and translations stay; likewise the cursor |
| `AddressRanges.InsertWellPlaced` | src/driver.h:371-385 | a range between its neighbours keeps the list sorted, page-disjoint and in segments |
| `AddressRanges.ReadOnlyIsGood` | src/driver.h:279-307 | a READ_ONLY request comes out well exactly if the head is not a KERNEL_MEM item |
| `AddressRanges.ReadWriteIsGood` | src/driver.h:309-336 | a READ_WRITE request exactly if there are not two KERNEL_MEM items and no room |
| `AddressRanges.KernelMemIsGood` | src/driver.h:337-365 | a KERNEL_MEM request always |
| `AddressRanges.PlaceIsGood` | src/driver.h:137-385 | from a well-placed list: nothing placed, or one page-aligned range of the segment that keeps the list well placed, exactly for the safe calls |
| `AddressRanges.FailsWhenFull` | src/driver.h:275-369 | a safe call throws exactly if its segment has no room, or if it is for READ_WRITE and the list has one KERNEL_MEM range and no READ_WRITE range |
| `AddressRanges.PlacedIsLowest` | src/driver.h:275-369 | a safe call that is placed gets the lowest address of its segment that is page-aligned and free |
| `AddressRanges.TwoKernelMemNeverRefuse` | src/driver.h:309-336 | with two KERNEL_MEM ranges and no READ_WRITE range every READ_WRITE request is placed, and breaks the list |
| `AddressRanges.UnsafeCalls` | src/driver.h:304-365 | two concrete calls that break the list |
| `AddressRanges.UnsafePlaces` | src/driver.h:304-365 | where every call that is not safe is placed: READ_ONLY at 0x40000000, behind the head; READ_WRITE on the page after the range at 0x80000000 |
| `AddressManager.SkipBelow` | src/driver.h:311-347 | the first item at or above an address, or the last item if there is none |
| `AddressManager.FindRoom` | src/driver.h:283-357 | the first item with room behind it |
| `AddressManager.AllocReadOnly` | src/driver.h:279-307 | the item and address that the placement function gives, hence the lowest free address for safe calls |
| `AddressManager.AllocReadWrite` | src/driver.h:309-336 | likewise |
| `AddressManager.AllocKernelMem` | src/driver.h:337-365 | likewise |
| `AddressManager.AllocVaddr` | src/driver.h:275-369 | likewise for every buffer type |
| `AddressManager.ChainInsert` | src/driver.h:371-385 | after relinking, prev and succ are inverse and follow the list with the new item in place |
| `AddressManager.Relink` | src/driver.h:380-384 | the assignments that relink around an item |
| `AddressManager.Manager.CreateNewContext` | src/driver.h:128-136 | a new empty list, or a refusal if the context exists |
| `AddressManager.Manager.InsertNewItem` | src/driver.h:371-385 | the list with the new range behind the item, or in front of a READ_WRITE head; the new item has the given kernel and task, the others are the same objects |
| `AddressManager.Manager.AllocMemory` | src/driver.h:137-187 | throws exactly when stated, changing nothing; otherwise the ranges are those before with the placed one, on an item of this kernel and task, links intact, other items and contexts untouched |
| `Tasks.PlaceFits` | src/driver.h:137-187 | a safe placement is page-aligned, below 2^39 and clear of the other ranges |
| `Tasks.Unmapped` | src/driver.h:430-438 | the range handed out has no mapped byte, which is what allocate needs |
| `Tasks.CreateInv` | src/driver.h:398-410 | create_device_mem keeps the driver's invariant and every view |
| `Tasks.FirstTask` | src/driver.h:398-410 | in 4 GiB without blocks the first root table is at 0x20000000 |
| `Tasks.AllocInv` | src/driver.h:422-449 | alloc_local_mem keeps the invariant and every mapped byte; on success the task sees zeros at the new range and nothing else changes |
| `Tasks.AllocSucceeds` | src/driver.h:422-449 | alloc_local_mem gets memory exactly under the condition of `Capacity.AllocateSucceeds` |
| `Tasks.UploadInv` | src/driver.h:467-482 | upload changes what its own task sees at the written bytes and nothing else |
| `Tasks.CleanInv` | src/device/memory.h:222-256 | clean_pt on a task's root keeps the driver's invariant and every view |
| `Tasks.CloseInv` | src/device/memory.h:258-283 | clean_task on a task's root keeps the invariant for the other tasks, and all their views |
| `Runs.StepInv` | src/driver.h:398-482 | each call, clean_pt and clean_task included, keeps the invariant and the roots of all tasks but one that is closed |
| `Runs.NewBlockReached` | src/device/memory.h:45-108 | clean_task can find the block of an allocation exactly if a page of it was mapped |
| `Runs.StepLost` | src/device/memory.h:258-283 | a block that clean_task cannot find stays so over every call |
| `Runs.DownloadAfterUpload` | src/driver.h:398-500 | over any run, with clean_pt and other tasks' clean_task: a full upload is still what the task sees, all mapped, unless the task itself uploads over it or is closed |
| `Runs.BufferStaysMapped` | src/driver.h:422-500 | over any such run: every transfer inside a successfully allocated buffer reaches its end while the task is there |
| `Runs.Conservation` | src/device/memory.h:39-283 | over any run, with clean_pt of any task and clean_task of others in between, tearing a task down leaves exactly the blocks of the others if, and only if, no allocation of the task has placed a block without mapping a page of it |
| `Runs.NothingLeft` | src/device/memory.h:39-283 | a task that ran alone leaves the blocks that were there before it, under the same condition and only then |
| `Runs.LosingRun` | src/device/memory.h:39-108 | two calls on two pages of memory that lose a block |
| `DeviceDriver.Driver.constructor` | src/driver.h:393-396 | no tasks; 4 GiB of empty memory, of which 0xE0000 pages are free, the first at 0x20000000 |
| `DeviceDriver.Driver.CreateDeviceMem` | src/driver.h:398-410 | a new task with its root, or a refusal |
| `DeviceDriver.Driver.AllocLocalMem` | src/driver.h:422-449 | the exact condition for success: a size above 0 and below the segment, an existing task, a place in its list, a gap for the buffer and a free page for each missing table; the exact condition for changing nothing: one of the first three fails; otherwise the range is listed and memory is as `allocate` leaves it |
| `DeviceDriver.Driver.Upload` | src/driver.h:467-482 | the mapped prefix written; success exactly if it is the whole buffer; without a task or its root table nothing happens |
| `DeviceDriver.Driver.Download` | src/driver.h:484-500 | the mapped prefix read as the task sees it; success exactly if it is the whole range; without a task or its root table a failure |
| `Arbiters.PointersAgree` | rtl/MMUTests.v:503-526 | the priority pointer equals the round-robin choice for every last grant exactly if at most one input is valid |
| `Arbiters.OtherGrantIsCloser` | rtl/MMUTests.v:503-526 | a grant to another input brings a valid one nearer its turn |
| `Arbiters.BoundedWaiting` | rtl/MMUTests.v:1263-1284 | an input that is held valid sees at most three grants to others, from any last grant |
| `MmuLatency.GrantsMove` | rtl/MMUTests.v:503-526 | every arbiter remembers the entry that its handshake took |
| `Mmu.MaskIsReadiness` | rtl/MMUTests.v:1904-1927 | the one-hot mask over the concatenated and reversed ready wires is the readiness of the cache that source bit 2 names |
| `MmuCycle.TlbReqNext` | rtl/MMUTests.v:274-366 | the TLB request queue holds the one request that is there, unchanged |
| `MmuCycle.PtwReqNext` | rtl/MMUTests.v:367-459 | likewise the L2 TLB request queue |
| `MmuCycle.PcReqNext` | rtl/MMUTests.v:1760-1844 | the page cache's request queue holds the read that its request wants next |
| `MmuCycle.PcRspNext` | rtl/MMUTests.v:1760-1844 | its response queue holds the word at that address |
| `MmuCycle.L2RspNext` | rtl/MMUTests.v:367-459 | the response queue holds the leaf entry of its request |
| `MmuCycle.ResponseWaits` | rtl/MMUTests.v:274-366 | while its client is not ready a response stays, and the one behind it too |
| `MmuCycle.OutstandingNext` | rtl/MMUTests.v:1845-1941 | the outstanding reads are those of the requests that wait, each once, tagged with walker and source |
| `MmuWalkers.FirstCases` | rtl/MMUTests.v:692-1148 | a first-level entry changes only as its own state allows |
| `MmuWalkers.LastCases` | rtl/MMUTests.v:1413-1690 | likewise a last-level entry |
| `MmuWalkers.SentIsPicked` | rtl/MMUTests.v:803-806 | the entry that is cleared is the one that is sent |
| `MmuWalkers.LostResponse` | rtl/MMUTests.v:1413-1521 | where the two differ, the response that is sent stays to be sent again and the one under deq_ptr is gone |
| `MmuWalkers.FirstFollows` | rtl/MMUTests.v:692-1148 | the entry of a request holds the table, page number and level that its walk has got to |
| `MmuWalkers.LastFollows` | rtl/MMUTests.v:1413-1690 | likewise in the last walker, up to the leaf entry |
| `MmuWalkers.LastHasRoom` | rtl/MMUTests.v:1419-1424 | four sources cannot fill the last walker while one of them is elsewhere |
| `MmuWalkers.FlowNext` | rtl/MMUTests.v:846-1690 | at most one entry per walker is ever ready to leave, and responses never back up |
| `MmuRuns.StepInv` | rtl/MMUTests.v:1942-2334 | every cycle keeps the whole invariant, logs included, and only adds to the logs |
| `MmuRuns.InvFrame` | rtl/MMUTests.v:1942-2334 | so does any change of memory away from the walks in flight |
| `MmuRuns.Delivered` | rtl/MMUTests.v:1942-2334 | in every run over changing memory, per source: accepted requests are the answered ones plus at most one, and the k-th answer is the leaf entry of the k-th request in the memory of every cycle in which that is in flight |
| `MmuRuns.ThreeReads` | rtl/MMUTests.v:1866-2333 | in every such run, per source: the reads sent are the three of each answered request in order, then the first of the one in flight, each walk in the memory of its own cycles |
| `MmuRuns.PointersAlwaysAgree` | rtl/MMUTests.v:803-1521 | in every reachable state both walkers clear what they send |
| `MmuRuns.AnswersFindTheirWalker` | rtl/MMUTests.v:1866-1941 | in every reachable state an outstanding read is that of the one entry that waits for it, in the walker that bit 2 of its source names |
| `MmuRuns.AnswerIsDelivered` | rtl/MMUTests.v:1845-1941 | io_memRspIn_ready is the readiness of the queue of the walker that source bit 2 names; an answer that is taken goes with its 2-bit source to that queue, and leaves the other one alone |
| `MmuProgress.FollowsIsCloser` | rtl/MMUTests.v:1942-2334 | every handshake brings its request exactly one step nearer its response |
| `MmuProgress.SomethingMoves` | rtl/MMUTests.v:1942-2334 | with a request in flight and memory cooperating, no reachable state is stuck |
| `MmuProgress.MeasureShrinks` | rtl/MMUTests.v:1942-2334 | the handshakes left never grow without new requests and shrink in every cycle in which anything moves |
| `MmuProgress.AllAnswered` | rtl/MMUTests.v:1942-2334 | from any reachable state, once no requests come and memory answers something in every cycle, everything in flight is answered within 72 cycles |
| `MmuLatency.HeldShrinks` | rtl/MMUTests.v:503-526 | in a cycle that leaves a request where it is, the round-robin and memory arbiters have brought it one cycle nearer its turn |
| `MmuLatency.TimeShrinks` | rtl/MMUTests.v:1942-2334 | a request in flight has less time left after every cycle, whatever the other sources do |
| `MmuLatency.QueueDrains` | rtl/MMUTests.v:1760-1844 | a full response queue is empty in the next cycle |
| `MmuLatency.OffersAreTaken` | rtl/MMUTests.v:1866-1941 | an answer that memory offers and holds is taken at most one cycle late |
| `MmuLatency.BoundedLatency` | rtl/MMUTests.v:1942-2334 | in every run in which memory is ready, offers each answer within L cycles and holds it, every request is answered within 50 + 3 L cycles, however many others keep coming |
| `MmuLatency.TakenWhenEmpty` | rtl/MMUTests.v:274-366 | in every run: a request of any source that is presented while the first queue is empty is accepted in that cycle |
| `MmuLatency.AcceptedSoon` | rtl/MMUTests.v:274-459 | in every run: a request that is presented until it is accepted is accepted within three cycles |
| `MmuLatency.OfferedToAnswered` | rtl/MMUTests.v:1942-2334 | such a request is answered within 53 + 3 L cycles of first being presented |
| `MmuLatency.AllAnsweredInTime` | rtl/MMUTests.v:1942-2334 | once no more requests come, such a memory has everything in flight answered in that time |
| `WalkerAndTables.SameReads` | rtl/MMUTests.v:748-815 | over the driver's tables the hardware reads the entries that the software's walk reads |
| `WalkerAndTables.LeafIsConvert` | src/device/memory.h:110-124 | convert is the page of the leaf entry plus the offset, or 0 exactly if the entry names no page |
| `WalkerAndTables.LeafFlags` | src/device/memory.h:97-104 | the leaf entry of a mapped address has the flags R, W, X and V and no other |
| `WalkerAndTables.RunTranslates` | rtl/MMUTests.v:1942-2334 | in every run each response, with its request's root, gives the software's translation in the tables of every cycle in which the request is in flight |
| `WalkerAndTables.SameWords` | src/device/memory.h:45-124 | a page that two states of the tables map to the same place is walked to through the same three words |
| `DriverAndWalker.StepKeepsWalk` | src/driver.h:398-482 | no driver call, clean_pt or clean_task of another task changes a word that the walk of a mapped address reads |
| `DriverAndWalker.DriverKeepsRule` | src/driver.h:398-482 | the driver and the MMU at work together, with requests for mapped addresses, are a run of the MMU: the rule on tables is kept |
| `DriverAndWalker.WalksWhileDriverWorks` | rtl/MMUTests.v:1942-2334 | while the driver goes on creating tasks, allocating, uploading and cleaning, every response is the place that its address is mapped to, with the flags R, W, X and V |

## Left out

- `Memory::release` (src/device/memory.h:200-220): its length stays 0, so it clears no entry.
- `Manager::releaseMemory`, `attachPaddr`, `findVaByPa` (src/driver.h:188-257) and the kernel identifiers they use: a driver call here uses one identifier for the task and its kernel.
- `Driver::start`, `wait`, `execute_all_kernel`, `all_context_finished`, `free_local_mem`, `delete_device_mem`: they do not build on the four pieces modelled here.
- The copy constructor of `PhysicalMemory`, the masked and array forms of `read` and `write`, and `read_phy` / `write_phy`: thin forms of the reads and writes that are modelled.
- `MemController`, `Processor` and the TileLink bundles, `src/ventus.cc`, `src/basic`, `MMUtest` and the random initialisation blocks of the Verilog.
- Wrap-around of 64-bit sums: sizes and addresses are taken to be small enough, as with the 4 GiB of device memory that the driver configures.
- A page buffer is a sequence inside its block: the source owns each buffer through a unique pointer, so aliasing does not arise and is not modelled.
- `BlockList.PhysicalMemory.Insert`: requires a live cursor and a range below the sentinel; the source dereferences the cursor after `remove` has erased its node, or runs past the end of the list.
- `DeviceMemory.Memory.Allocate`: requires a live cursor for the same reason, and an address whose pages end within 39 bits; a length of 0 is left out.
- Root addresses passed to `Memory` are those of live root tables, as the driver keeps them, or 0 for the transfers; the source accepts any number.
- `DeviceDriver.Driver.Upload`: requires the range to end below 2^39, where page numbers would start again from 0.
- `DeviceDriver.Driver.AllocLocalMem`: requires a call that is safe for the task's list and a task whose root table exists; a failed `create_root_pt` leaves root 0, on which the source goes on taking a page for each table and writing entries, which are refused, into the reserved block.
- `MmuRuns.Delivered`: the rules of the environment listed above; with a repeated source in flight or a response side that is not ready the pointers of a walker can differ.
- `DriverAndWalker.DriverKeepsRule`: a driver call is one step between two cycles; what memory holds between two writes of one call is not the memory of a cycle there.
- Reset during operation: runs start from the state after reset, and reset stays low.
