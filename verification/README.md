# Models of a small kernel, and of the stack of a GLR parser

The repository keeps a complete early Unix-like kernel under `boot/linux-handy` and a generated
GLR parser under `bison/biscase`. This project models the parts of both that carry the hardest
bookkeeping and proves what they are for. `dafny verify dfyconfig.toml` checks everything.

| files | what is modelled | main results |
|---|---|---|
| `Paging`, `PagingInvariant`, `PagingSteps`, `PagingRefinement`, `PagingRuns`, `PagingSupply`, `PageManager` | copy-on-write memory: reference counts, fork, write faults, exit, page sharing, `verify_area` | `RunRefinesEager`, `RunIsolates`, `ForkIsolates`, `ReachableCounts`, `ForkCopiesOrRestores`, `ForkSucceedsIff` |
| `FileStore`, `FileOwnership`, `FileCreate`, `FileContents`, `FileTruncate`, `FileRuns`, `FileSystem` | zone bitmap, block trees, file reads and writes, truncation | `RunFlat`, `CreateBlockMaps`, `WriteIsSplice`, `TruncateFrees`, `TruncateLoses`, `TruncateStaysExact`, `BlockGetsLost`, `BmapIsOnDisk` |
| `CreateCalls` | `create_block` with tasks that sleep inside it | `NextKeeps`, `LossIff`, `OverlapLoses`, `AloneIsCreate` |
| `BufferQueues`, `BufferCache`, `Getblk` | hash chains and free ring of the buffer cache; `getblk` with tasks that sleep inside it | `RemoveKeeps`, `InsertKeeps`, `NextKeeps`, `HoldersShareOneBuffer`, `HeldBufferKeepsIdentity`, `SleepsIff`, `ReturnsIff` |
| `InodeCache` | `iget`, `get_empty_inode`, `iput` with tasks that sleep inside them | `NextKeeps`, `HeldSlotKeepsIdentity`, `UnusedAreClean`, `ReturnsIff` |
| `Scheduler`, `WaitQueues`, `Timers` | counters and epochs; wait queues threaded through kernel stacks; the timer list | `EpochIsFair`, `EpochLength`, `EpochShares`, `SliceEndsIff`, `NobodyIsLost`, `WakeCarries`, `OneWakeIsEnough`, `NobodyWakesEarly`, `NeverEarlyNeverTwice`, `OnTimeIff`, `LateCall` |
| `Pipe`, `ExecArgs` | the pipe ring and the readers and writers asleep on it; the argument block of `execve` | `PipeIsFifo`, `NobodyStalls`, `EveryCallWakes`, `CallEndsIff`, `Execve`, `OverrunHappens`, `LaunchShort` |
| `Glr` | compaction of the split stack, merging of option chains | `CompressStack`, `MergeChains`, `MergeOptionSets` |
| `Number` | the number formatter and `skip_atoi` | `FormattedIff`, `FormattedDenotes`, `AtoiUndoesDigits` |

Code that works in place is modelled in place: a class holds the arrays and pointers, its methods
follow the source's loops, and their contracts tie the new state to a specification function or
state the result outright. What the source promises is then proved about those functions, as
invariants over every run. Where tasks may sleep, the model is a step machine: the kernel is not
preempted, so what a task does between two sleeps is one step, and any other task, or a device,
may act between steps. `Basics` holds what several modules share.

Five promises turn out to hold only under a condition, which is proved to be exact:

* Truncation keeps the block bitmap exact if and only if no other task holds the buffer of one of
  the inode's blocks (`TruncateStaysExact`). `free_block` returns early for a held buffer, the inode
  forgets the block all the same, and its bit stays set for ever. The early return also leaves a
  reference on the buffer that nobody gives back, so that the cache is one buffer smaller.
  `BlockGetsLost` is a run from a new device that loses a block and its buffer so. Over any run the
  blocks lost, and the buffers, are exactly those held when their inode was truncated; no block is
  shared or freed twice, and the files read as they should (`RunFlat`).
* Concurrent calls of `create_block` lose no block if and only if none of them takes a zone for a
  slot while another, which has found the same slot empty, sleeps in `new_block` (`LossIff`). The
  slot is not looked at again after the sleep, so the second call overwrites what the first has
  stored: `OverlapLoses` is such a run, and the block lost is one that `create_block` has returned.
  Even so no block is ever named twice or taken while in use.
* A timer is called exactly when due if and only if, while it waits, none is added for at most the
  ticks it has left (`OnTimeIff`). The list is documented as holding relative ticks, but
  `add_timer` does not take the new timer's ticks off its successor, so the timers behind it slip by
  exactly those (`InsertSums`); timers added behind a timer do not move it. `LateCall` is a request
  for two ticks that is called at the third. Nothing is ever called early.
* Arguments and environment survive `execve` whenever they fit, except for a `#!` script that is
  called with an empty `argv`: `--argc` then goes below zero, `argc` ends one too small, and the
  program sees a wrong argument count (`LaunchIff`, `Execve`); `LaunchShort` is such a call. The
  check `p-len < 0` in `copy_strings` compares an unsigned difference with zero and never fires. A
  copy runs below its block exactly when all 32 pages can be had and one of the calls passes the end
  of the block (`Overruns`), as a single long variable does (`OverrunHappens`); a call that ends at
  its very last byte counts as a failure, as the address 0 means one.
* `skip_atoi` undoes plain decimal output exactly for values below 2 to the 31st
  (`AtoiUndoesDigits`, `FormatThenRead`); above, its int overflows.

Where the documentation and the code differ, the code is followed.

## Model

Sources are relative to the root of the repository.

| member | source | states |
|---|---|---|
| PagingRuns.RunRefinesEager | boot/linux-handy/mm/memory.c:150-334 | over any run of fork, exit, stores, checks, demand-zero pages and page sharing, tasks read what they would if fork copied eagerly; the counting invariant holds and no panic is reached |
| PagingRuns.DoRefinesEager | boot/linux-handy/mm/memory.c:150-334 | the same for every single operation, failures included |
| PagingRuns.DoKeepsInv | boot/linux-handy/mm/memory.c:63-334 | every operation keeps counts exact, writable pages unshared, page tables exclusive and held frames unmapped |
| PagingRuns.RunIsolates | boot/linux-handy/mm/memory.c:221-259 | a run never changes a page it does not address: a store in one space does not show in another |
| PagingRuns.ForkIsolates | boot/linux-handy/mm/memory.c:150-189 | after fork, whatever follows, a page of parent or child that is not addressed reads as it did in the parent |
| PagingRuns.ReachableCounts | boot/linux-handy/mm/memory.c:57-99 | from boot on, a frame's count is the number of entries naming it plus kernel holds, and at most 64, so the byte never wraps |
| PagingRefinement.ForkCopiesOrRestores | boot/linux-handy/kernel/fork.c:39-61 | a fork that succeeds shows the child the parent's pages; one that runs out of memory restores every count and changes nobody's pages |
| PagingRefinement.CopyDirsPages | boot/linux-handy/mm/memory.c:150-189 | copy_page_tables, complete or cut short, keeps the invariant and shows the copied range in the new space |
| PagingRefinement.CopyTablePages | boot/linux-handy/mm/memory.c:172-185 | one table shared read-only shows the same pages in both spaces, and nothing else changes |
| PagingRefinement.FreeDirsPages | boot/linux-handy/mm/memory.c:105-131 | free_page_tables empties its range, leaves all other pages alone and keeps the counts exact |
| PagingRefinement.FreeTablePages | boot/linux-handy/mm/memory.c:119-125 | the inner loop drops one reference per present entry and clears the table |
| PagingRefinement.CountsDetermined | boot/linux-handy/mm/memory.c:57-57 | two states that obey the invariant and agree on who names what have the same counts |
| PagingRefinement.StorePages | boot/linux-handy/mm/memory.c:221-259 | a store, with its write fault if there is one, changes one word of one page of one space and leaves its entry dirty |
| PagingRefinement.VerifyPages | boot/linux-handy/mm/memory.c:261-272 | write_verify leaves a present page writable with the same contents, or runs out of memory and changes nothing |
| PagingRefinement.SharePages | boot/linux-handy/mm/memory.c:292-334 | try_to_share maps the other task's page read-only in both, panics only when the target exists, and otherwise changes no page |
| PagingRefinement.VerifyAreaPages | boot/linux-handy/kernel/fork.c:24-37 | verify_area makes every present page touching the area writable, leaves entries outside the area as they are, and shows no task a change |
| PagingRefinement.TaskForkRange | boot/linux-handy/kernel/fork.c:52-56 | the ranges copy_mem passes for two tasks, 64MB apart, meet what copy_page_tables demands |
| PagingSteps.CopyEntryStep | boot/linux-handy/mm/memory.c:173-184 | sharing one entry keeps the invariant and every page |
| PagingSteps.UnprotectStep | boot/linux-handy/mm/memory.c:221-238 | un_wp_page gives the faulting entry a private writable page with the same words, whether it was the last sharer or not |
| PagingSteps.SplitStep | boot/linux-handy/mm/memory.c:231-237 | splitting a shared page moves one reference to a fresh frame and changes no other page |
| PagingSteps.WriteStep | boot/linux-handy/mm/memory.c:221-238 | a writable page is its frame's only reference, so a store through it shows nowhere else |
| PagingSteps.InstallTableStep | boot/linux-handy/mm/memory.c:169-171 | a new page table is a frame nobody else names, and shows no page |
| PagingSteps.ClearTableStep | boot/linux-handy/mm/memory.c:126-127 | an emptied table gives its frame back and changes no page |
| PagingSteps.FreeEntryStep | boot/linux-handy/mm/memory.c:120-125 | freeing one entry drops one reference and removes one page |
| PagingSteps.PutPageStep | boot/linux-handy/mm/memory.c:197-219 | put_page turns a kernel hold into a mapping, or runs out of memory and leaves the hold |
| PagingSteps.GetEmptyPageStep | boot/linux-handy/mm/memory.c:274-282 | get_empty_page maps a page of zeros, or gives its frame back |
| PagingInvariant.BootInv | boot/linux-handy/mm/memory.c:399-411 | the state mem_init leaves obeys the invariant |
| PagingInvariant.CountPositive | boot/linux-handy/mm/memory.c:226-226 | a count of 1 means exactly that the entry is the frame's only reference |
| PagingInvariant.RefsBound | boot/linux-handy/mm/memory.c:57-57 | no frame has more references than there are tasks |
| PagingInvariant.FreeFrameUnused | boot/linux-handy/mm/memory.c:63-83 | the frame get_free_page finds is named by no entry and held by nobody |
| PagingInvariant.HighestFreeFrame | boot/linux-handy/mm/memory.c:63-83 | get_free_page finds the highest pageable frame whose count is 0, and nothing exactly when there is none |
| PagingInvariant.FreeIffUnnamed | boot/linux-handy/mm/memory.c:57-99 | such a frame is one that no entry names and nobody holds |
| PagingSupply.CheckFailsIff | boot/linux-handy/mm/memory.c:261-272 | write_verify runs out of memory exactly when the page has to be copied and no frame is free |
| PagingSupply.WriteFailsIff | boot/linux-handy/mm/memory.c:221-259 | a store fails exactly so, or where there is no page |
| PagingSupply.EnterFailsIff | boot/linux-handy/mm/memory.c:197-219 | put_page runs out of memory exactly when it needs a page table and no frame is free |
| PagingSupply.DemandSucceedsIff | boot/linux-handy/mm/memory.c:274-282 | get_empty_page succeeds exactly when one frame is free, two where the page table is missing |
| PagingSupply.ForkSucceedsIff | boot/linux-handy/kernel/fork.c:39-61 | fork succeeds exactly when as many frames are free as the parent has page tables |
| PagingSupply.AreaFailsOnlyWithoutFrames | boot/linux-handy/kernel/fork.c:24-37 | verify_area stops short only when no frame is free |
| PagingSupply.ShareIff | boot/linux-handy/mm/memory.c:292-334 | try_to_share shares a page exactly when it is present, clean and pageable in the other task and a frame can be had for a missing table |
| PagingInvariant.RedirectKeepsInv | boot/linux-handy/mm/memory.c:57-99 | moving one reference with its count keeps the whole invariant |
| PageManager.PhysicalMemory.GetFreePage | boot/linux-handy/mm/memory.c:63-83 | the highest pageable frame of count 0 is returned with its count 1 and its words zero, all others untouched; 0 exactly when no pageable frame has count 0 |
| PageManager.PhysicalMemory.ReleasePage | boot/linux-handy/mm/memory.c:89-99 | free_page: one reference less, low memory ignored, a free page is a panic |
| PageManager.PhysicalMemory.FreePageTables | boot/linux-handy/mm/memory.c:105-131 | the loops over tables and entries are the specified freeing |
| PageManager.PhysicalMemory.CopyPageTables | boot/linux-handy/mm/memory.c:150-189 | the loops over tables and entries are the specified copy, with its failure and its panic |
| PageManager.PhysicalMemory.ForkMemory | boot/linux-handy/kernel/fork.c:56-59 | copying with cleanup; a failed fork leaves mem_map as it was |
| PageManager.PhysicalMemory.UnWpPage | boot/linux-handy/mm/memory.c:221-238 | un_wp_page in place is the specified unsharing |
| PageManager.PhysicalMemory.VerifyWrite | boot/linux-handy/mm/memory.c:261-272 | write_verify in place |
| PageManager.PhysicalMemory.SharePage | boot/linux-handy/mm/memory.c:292-334 | try_to_share in place, with each of its outcomes |
| PageManager.PhysicalMemory.MapPage | boot/linux-handy/mm/memory.c:197-219 | put_page in place |
| PageManager.PhysicalMemory.MapEmptyPage | boot/linux-handy/mm/memory.c:274-282 | get_empty_page in place |
| PageManager.PhysicalMemory.PrepareArea | boot/linux-handy/kernel/fork.c:24-37 | verify_area's loop in place |
| FileRuns.RunFlat | boot/linux-handy/fs/file_dev.c:17-90 | over any run of writes, appends, block creation, truncation and buffer holds, the files are what the same run makes of plain byte strings; blocks in use are named at most once and no panic is reached; the blocks lost, and the buffers never given back, are exactly those held when their inode was truncated |
| FileRuns.StepFlat | boot/linux-handy/fs/file_dev.c:48-90 | the same for a single operation; a write falls short only when the device is full |
| FileRuns.PerformAll | boot/linux-handy/fs/file_dev.c:17-90 | the device, through the methods of its class, goes through exactly such runs |
| FileRuns.BlockGetsLost | boot/linux-handy/fs/bitmap.c:57-62 | a run from a new device that loses a block: its first block is held while the file is truncated, and its buffer stays held after its holder has given it back |
| FileRuns.FreshGood | boot/linux-handy/fs/bitmap.c:75-105 | an empty device obeys the invariant |
| FileContents.WriteIsSplice | boot/linux-handy/fs/file_dev.c:48-90 | file_write splices the bytes it reports into the file at its position; gaps read as zero, the size grows to the maximum, other files stay; fewer than asked only on a full device |
| FileContents.WriteFileStores | boot/linux-handy/fs/file_dev.c:58-84 | the loop of file_write keeps ownership, loses no block and stores a prefix of the buffer, byte by byte |
| FileContents.WriteTurnStores | boot/linux-handy/fs/file_dev.c:59-83 | one turn stores all its bytes, or none on a full device |
| FileContents.ReadAfterWrite | boot/linux-handy/fs/file_dev.c:17-90 | what file_write has stored is read back from there |
| FileContents.ReadIsSlice | boot/linux-handy/fs/file_dev.c:17-46 | a read within the size delivers that slice of the file |
| FileContents.ReadChunkBytes | boot/linux-handy/fs/file_dev.c:25-42 | one turn of the read loop delivers the file's bytes, zeros for a hole |
| FileContents.ByteLiesOnDisk | boot/linux-handy/fs/file_dev.c:25-42 | a byte of a file is the byte at its place in the block that the disk lists for it, zero where there is none |
| FileContents.WriteChunkStep | boot/linux-handy/fs/file_dev.c:69-81 | one turn of the write loop changes its bytes of its file and nothing of any other |
| FileCreate.CreateBlockMaps | boot/linux-handy/fs/inode.c:72-138 | create_block maps its block number, moves no other mapping, never maps two numbers to one block, and fails only when the device is full |
| FileCreate.CreateBlockStep | boot/linux-handy/fs/inode.c:72-138 | the same in terms of slots: any block taken on the way is owned by the inode, and no file reads differently |
| FileCreate.FillZoneStep | boot/linux-handy/fs/inode.c:82-86 | filling a zone of the inode plugs one free block into one slot, or finds the device full |
| FileCreate.FillPointerStep | boot/linux-handy/fs/inode.c:100-105 | filling an indirect entry plugs one free block into one slot, or finds the device full |
| CreateCalls.NextKeeps | boot/linux-handy/fs/inode.c:72-138 | every step of any number of concurrent calls keeps named zones in use and named once, reaches no panic, and wastes exactly what a fill overwrites, or stores where nothing reads it |
| CreateCalls.RunKeeps | boot/linux-handy/fs/inode.c:72-138 | the same over any run, with all that is wasted |
| CreateCalls.LossIff | boot/linux-handy/fs/inode.c:72-138 | when all calls have come to their end, blocks have been lost if and only if two of them overlapped for one empty slot |
| CreateCalls.OverlapLoses | boot/linux-handy/fs/inode.c:81-87 | a run in which two calls for one slot lose the block that one of them has returned |
| CreateCalls.AloneIsCreate | boot/linux-handy/fs/inode.c:72-138 | a call that nobody disturbs is create_block, at every depth |
| CreateCalls.MarkKeeps | boot/linux-handy/fs/bitmap.c:75-98 | the first half of new_block sets the bit of a zone that nothing names, or finds the device full |
| CreateCalls.FillAttached | boot/linux-handy/fs/inode.c:100-105 | a zone stored where it belongs is owned; what the slot named before is lost with all that was reached through it |
| CreateCalls.FillOrphan | boot/linux-handy/fs/inode.c:100-105 | a zone stored in a block that nothing names any more is itself lost |
| FileOwnership.FreeZoneUnused | boot/linux-handy/fs/bitmap.c:75-105 | the zone new_block takes is named by nobody and held by nobody |
| FileOwnership.PlugKeepsInv | boot/linux-handy/fs/bitmap.c:90-105 | setting a bit and naming the zone once keeps ownership and loses no zone |
| FileOwnership.BmapIsSlot | boot/linux-handy/fs/inode.c:72-138 | bmap reads the slot the tree gives its block number |
| FileOwnership.DataSlotInjective | boot/linux-handy/fs/inode.c:81-137 | different block numbers have different slots across the direct, single and double ranges |
| FileOwnership.BmapIsOnDisk | boot/linux-handy/fs/inode.c:72-138 | bmap answers what the bytes of the disk say: the zone number lies in the indirect block with its low byte first, also through two levels |
| FileOwnership.MapsToOnce | boot/linux-handy/fs/inode.c:72-138 | and they say only one thing |
| FileTruncate.TruncateFrees | boot/linux-handy/fs/truncate.c:47-64 | truncate frees a block exactly when the inode names it and nobody holds its buffer; all other slots stay; no panic is reached |
| FileTruncate.TruncateLoses | boot/linux-handy/fs/truncate.c:47-64 | truncate keeps every other block named once and in use, whoever holds buffers, and loses exactly the held blocks of the inode, with their buffers |
| FileTruncate.TruncateStaysExact | boot/linux-handy/fs/truncate.c:47-64 | the bitmap stays exact if and only if nobody else holds a block of the inode |
| FileTruncate.TruncateClears | boot/linux-handy/fs/truncate.c:47-64 | the three levels of loops clear exactly the bits of the tree |
| FileTruncate.TreeIsNamed | boot/linux-handy/fs/truncate.c:11-45 | the blocks the loops visit are exactly those some slot of the inode names |
| FileTruncate.FreeTablesClears | boot/linux-handy/fs/truncate.c:37-41 | the loop of free_dind clears the blocks of all its tables |
| FileTruncate.FreeIndClears | boot/linux-handy/fs/truncate.c:11-27 | free_ind clears its entries and its own block |
| FileTruncate.FreeDirectClears | boot/linux-handy/fs/truncate.c:53-57 | the loop over direct zones clears them and forgets them |
| FileTruncate.FreesContents | boot/linux-handy/fs/truncate.c:47-64 | afterwards the file is empty and every other file reads as before |
| FileStore.FirstZeroIsFirst | boot/linux-handy/fs/bitmap.c:31-45 | find_first_zero finds the lowest clear bit |
| FileStore.NewBlockTakes | boot/linux-handy/fs/bitmap.c:75-105 | new_block takes the lowest free zone, sets its bit and zeroes its block, changing nothing else; it finds none exactly when all zones are in use |
| FileSystem.Device.FindFirstZero | boot/linux-handy/fs/bitmap.c:31-45 | the scan in place |
| FileSystem.Device.NewBlock | boot/linux-handy/fs/bitmap.c:75-105 | new_block in place: bit set, block zeroed, 0 when the device is full |
| FileSystem.Device.ReleaseBlock | boot/linux-handy/fs/bitmap.c:47-73 | free_block in place, with its early return for a held buffer, which leaves a reference on it, and its panics |
| FileSystem.Device.MapBlock | boot/linux-handy/fs/inode.c:72-138 | _bmap in place, with and without create: what it returns is what the zones of the inode and the bytes of the indirect blocks say afterwards, a pointer just created included |
| FileSystem.Device.FileWrite | boot/linux-handy/fs/file_dev.c:48-90 | the write loop in place: the file becomes its old content with a prefix of the buffer spliced in, all of it unless the device is full, and the position moves unless appending |
| FileSystem.Device.WriteThenRead | boot/linux-handy/fs/file_dev.c:17-90 | file_write followed by file_read delivers what was written |
| FileSystem.Device.FileRead | boot/linux-handy/fs/file_dev.c:17-46 | the read loop in place delivers the file's bytes, each as it lies on the disk, within the size a slice of its content, and moves the position |
| FileSystem.Device.FreeIndirect | boot/linux-handy/fs/truncate.c:11-27 | free_ind in place |
| FileSystem.Device.FreeDoubleIndirect | boot/linux-handy/fs/truncate.c:29-45 | free_dind in place |
| FileSystem.Device.TruncateFile | boot/linux-handy/fs/truncate.c:47-64 | truncate in place frees exactly what it should |
| BufferQueues.RemoveKeeps | boot/linux-handy/fs/buffer.c:131-147 | remove_from_queues takes one buffer off its chain and off the ring, and nothing else moves |
| BufferQueues.InsertKeeps | boot/linux-handy/fs/buffer.c:149-164 | insert_into_queues puts a buffer at the end of the ring and, if it has a device, on the chain of its hash |
| BufferQueues.UnringRing | boot/linux-handy/fs/buffer.c:141-146 | unlinking keeps the doubly linked ring and its head |
| BufferQueues.EnringRing | boot/linux-handy/fs/buffer.c:152-155 | linking before the head appends to the ring |
| BufferQueues.UnhashChain | boot/linux-handy/fs/buffer.c:134-139 | unlinking keeps the doubly linked chain and its bucket |
| BufferQueues.EnhashChain | boot/linux-handy/fs/buffer.c:157-163 | linking puts the buffer at the head of its chain |
| BufferCache.Cache.constructor | boot/linux-handy/fs/buffer.c:348-381 | buffer_init leaves one ring of all buffers and empty chains |
| BufferCache.Cache.RemoveFromQueues | boot/linux-handy/fs/buffer.c:131-147 | the pointer writes in place |
| BufferCache.Cache.InsertIntoQueues | boot/linux-handy/fs/buffer.c:149-164 | the pointer writes in place |
| BufferCache.Cache.FindBuffer | boot/linux-handy/fs/buffer.c:166-174 | walking one chain answers as a scan of the whole buffer array |
| BufferCache.Cache.ScanFreeList | boot/linux-handy/fs/buffer.c:213-223 | the walk around the free ring finds the specified buffer |
| BufferCache.Cache.RecycleBuffer | boot/linux-handy/fs/buffer.c:243-250 | a recycled buffer moves to the end of the ring and to the chain of its new block |
| Getblk.ScanPicksLeast | boot/linux-handy/fs/buffer.c:213-223 | the scan picks an unused buffer of least badness, none only if all are in use |
| Getblk.ScanPicksBest | boot/linux-handy/fs/buffer.c:213-223 | it is clean if any unused buffer is, then unlocked if any of those is, and the first such on the ring |
| BufferCache.MovesTo | boot/linux-handy/fs/buffer.c:243-250 | a recycled buffer becomes the last of the ring, and the others keep their order |
| Getblk.NextKeeps | boot/linux-handy/fs/buffer.c:183-261 | every step of every task keeps identities unique and counts equal to users |
| Getblk.OnlyIdleBuffersChange | boot/linux-handy/fs/buffer.c:223-250 | a buffer is recycled only when unused, unlocked and clean, and only for a block no buffer has |
| Getblk.HoldersShareOneBuffer | boot/linux-handy/fs/buffer.c:206-251 | over any interleaving all holders of a block hold the same buffer |
| Getblk.HeldBufferKeepsIdentity | boot/linux-handy/fs/buffer.c:206-261 | from getblk to brelse the buffer keeps its block, whatever else happens |
| Getblk.SleepsIff | boot/linux-handy/fs/buffer.c:212-228 | a call that looks for its block is put to sleep exactly when all buffers are in use and none carries the block |
| Getblk.OnlySearchersSleep | boot/linux-handy/fs/buffer.c:206-251 | no other step puts a call to sleep on buffer_wait |
| Getblk.WaitingGets | boot/linux-handy/fs/buffer.c:206-251 | wherever a call stands, it comes to hold a buffer of its block if the disk driver does its part, provided that a buffer is unused or carries the block |
| Getblk.ReturnsIff | boot/linux-handy/fs/buffer.c:206-251 | left to itself and the disk driver, a call that begins returns a buffer of its block exactly when a buffer is unused or carries the block |
| Getblk.RunKeeps | boot/linux-handy/fs/buffer.c:183-261 | the invariant over any run |
| Getblk.InitialInv | boot/linux-handy/fs/buffer.c:348-381 | it holds at first |
| InodeCache.NextKeeps | boot/linux-handy/fs/inode.c:150-292 | every step of every task keeps (device, number) unique and counts equal to users |
| InodeCache.UsedSlotsKeepIdentity | boot/linux-handy/fs/inode.c:194-226 | a slot with a device and a positive count never changes its identity |
| InodeCache.HoldersShareOneSlot | boot/linux-handy/fs/inode.c:244-292 | over any interleaving all holders of an inode hold the same slot, the only one that carries it |
| InodeCache.HeldSlotKeepsIdentity | boot/linux-handy/fs/inode.c:244-292 | from iget to iput the slot stays the inode asked for |
| InodeCache.PickFailsWhenFull | boot/linux-handy/fs/inode.c:200-216 | get_empty_inode gives up exactly when every slot is in use, wherever its pointer stands |
| InodeCache.PickIsReady | boot/linux-handy/fs/inode.c:201-210 | it takes the first unused slot after its pointer that is clean and unlocked, and leaves the pointer there |
| InodeCache.PickIsReadyIff | boot/linux-handy/fs/inode.c:201-210 | the slot is clean and unlocked exactly if any unused one is |
| InodeCache.UnusedAreClean | boot/linux-handy/fs/inode.c:150-226 | a slot that nobody uses is clean after every step, so that no change to an inode is lost with its slot |
| InodeCache.OnlyIdleSlotsChange | boot/linux-handy/fs/inode.c:194-292 | a slot becomes another inode only while it has no device, or is unused, unlocked and clean |
| InodeCache.WaitingGets | boot/linux-handy/fs/inode.c:194-292 | wherever a call of iget stands, it comes to hold its inode if the disk driver does its part, provided that a slot is unused as long as it has none |
| InodeCache.ReturnsIff | boot/linux-handy/fs/inode.c:194-292 | left to itself and the disk driver, a call that begins returns its inode exactly when a slot is unused, even for an inode that is in the table; else it is a panic |
| InodeCache.RunKeeps | boot/linux-handy/fs/inode.c:150-292 | the invariant over any run |
| InodeCache.InodeTable.PickEmpty | boot/linux-handy/fs/inode.c:201-210 | the rotating scan in place; the slot is clean and unlocked exactly if any unused one is |
| InodeCache.InodeTable.ScanTable | boot/linux-handy/fs/inode.c:251-256 | one pass over the table in place |
| Scheduler.PickIsMaximal | boot/linux-handy/kernel/sched.c:125-134 | the task picked is runnable with the largest counter, the last in the table among equals; task 0 exactly when no other can run |
| Scheduler.OneRechargeIsEnough | boot/linux-handy/kernel/sched.c:124-140 | the loop of schedule ends after at most one recharge |
| Scheduler.NextKeeps | boot/linux-handy/kernel/sched.c:124-142 | counters stay between 0 and twice the priority less one |
| Scheduler.RunKeeps | boot/linux-handy/kernel/sched.c:124-142 | the same over any run |
| Scheduler.EpochIsFair | boot/linux-handy/kernel/sched.c:124-142 | between two successive recharges a task that can run all along is charged at least its priority in ticks, so it has been current |
| Scheduler.EpochLength | boot/linux-handy/kernel/sched.c:124-142 | under ticks in user mode alone the next recharge comes with exactly the tick that uses up the counters of all tasks that can run, added up |
| Scheduler.EpochShares | boot/linux-handy/kernel/sched.c:124-142 | and of these ticks every task gets exactly its counter |
| Scheduler.TickCosts | boot/linux-handy/kernel/sched.c:332-335 | a tick takes 1 off a positive counter of the current task and touches no other; it enters schedule exactly in user mode with nothing left |
| Scheduler.SliceEndsIff | boot/linux-handy/kernel/sched.c:332-335 | a task that does not give up the processor keeps it until schedule is entered by a tick in user mode, the c-th or a later one, where c is its counter |
| Scheduler.RechargeGives | boot/linux-handy/kernel/sched.c:124-140 | a recharge comes exactly when some task can run and all that can have used their counters; each task but the idle one then has its priority and half of what it had |
| Scheduler.SleeperGains | boot/linux-handy/kernel/sched.c:136-139 | while a task sleeps, what its counter lacks of twice its priority is halved by every recharge, rounded up, and changed by nothing else |
| Scheduler.TaskTable.Dispatch | boot/linux-handy/kernel/sched.c:124-142 | schedule in place |
| Scheduler.TaskTable.DoTimer | boot/linux-handy/kernel/sched.c:332-335 | the accounting of do_timer in place: one tick off a positive counter and nothing else, unless schedule is entered |
| WaitQueues.NextKeeps | boot/linux-handy/kernel/sched.c:151-194 | sleeping, waking and returning keep every sleeper named by exactly one head or saved pointer; links never join |
| WaitQueues.NobodyIsLost | boot/linux-handy/kernel/sched.c:151-165 | every sleeper is reached through saved pointers from the head of its queue or from a task woken but not yet returned |
| WaitQueues.WakeDrains | boot/linux-handy/kernel/sched.c:188-194 | after wake_up the chain drains in order, whatever else runs: its first remaining task is runnable, and each return makes the next one so |
| WaitQueues.WakeCarries | boot/linux-handy/kernel/sched.c:151-194 | after wake_up and any actions the first k of the chain, and no others, have returned from sleep_on, the next can run, and those behind it still sleep |
| WaitQueues.OneWakeIsEnough | boot/linux-handy/kernel/sched.c:162-164 | one wake_up and one turn for each task of the chain, and all of them run outside sleep_on |
| WaitQueues.NobodyWakesEarly | boot/linux-handy/kernel/sched.c:151-194 | without a wake_up on the queue everybody on it keeps sleeping, in the same order |
| WaitQueues.RunKeeps | boot/linux-handy/kernel/sched.c:151-194 | the invariant over any run |
| WaitQueues.InitialInv | boot/linux-handy/kernel/sched.c:151-194 | it holds at first |
| WaitQueues.TaskQueues.SleepOn | boot/linux-handy/kernel/sched.c:151-162 | sleep_on up to schedule, in place |
| WaitQueues.TaskQueues.WakeNext | boot/linux-handy/kernel/sched.c:163-165 | sleep_on after schedule, in place |
| WaitQueues.TaskQueues.WakeUp | boot/linux-handy/kernel/sched.c:188-194 | wake_up in place |
| Timers.NeverEarlyNeverTwice | boot/linux-handy/kernel/sched.c:272-328 | over any run of requests and ticks, a request is pending or called as often as it was made, and nothing is called before it is due |
| Timers.OnTimeIff | boot/linux-handy/kernel/sched.c:272-328 | through any actions after its request a timer is called exactly when due if and only if none was added, while it waited, for at most the ticks it had left; late otherwise, never early |
| Timers.SlipsIff | boot/linux-handy/kernel/sched.c:287-300 | one new timer leaves the ticks of another alone if and only if it asks for more |
| Timers.LateCall | boot/linux-handy/kernel/sched.c:272-328 | an input that is called late: due at tick 2, called at tick 3 |
| Timers.ExpiresOnTime | boot/linux-handy/kernel/sched.c:319-328 | under ticks alone the i-th timer is called when its summed ticks are over, after those before it |
| Timers.TickFiresOne | boot/linux-handy/kernel/sched.c:319-328 | at most one function is called per tick, and stored ticks stay positive |
| Timers.InsertSums | boot/linux-handy/kernel/sched.c:287-300 | a new timer's ticks sum up to those asked for; none before it moves, and one after it moves back by exactly what the new one stores |
| Timers.InsertSplits | boot/linux-handy/kernel/sched.c:291-300 | the exchange of contents amounts to an insertion at one place |
| Timers.NextKeeps | boot/linux-handy/kernel/sched.c:272-328 | requests and ticks keep all pending timers positive and not early |
| Timers.TimerList.AddTimer | boot/linux-handy/kernel/sched.c:272-303 | add_timer in place: called at once for no ticks, a panic exactly when all entries are in use, the insertion otherwise; entries in use are those with a function |
| Timers.TimerList.Sink | boot/linux-handy/kernel/sched.c:291-300 | the loop that exchanges contents leaves the specified list |
| Timers.TimerList.FindFree | boot/linux-handy/kernel/sched.c:282-284 | a free entry is found unless all are in use |
| Timers.TimerList.Tick | boot/linux-handy/kernel/sched.c:319-328 | the timer part of do_timer in place |
| Pipe.PipeIsFifo | boot/linux-handy/fs/pipe.c:13-69 | over any interleaving of readers and writers the bytes read, followed by those between tail and head around the end of the page, are the bytes written; every call that returned has moved what it says, in order, and all of it unless the other end was closed |
| Pipe.NextKeeps | boot/linux-handy/fs/pipe.c:13-69 | every step keeps that order, each call's own bytes, and the wait queue of the inode |
| Pipe.NobodyStalls | boot/linux-handy/fs/pipe.c:17-24 | of all tasks inside a call at most one is asleep, a reader on an empty ring or a writer on a full one; all others can go on |
| Pipe.EveryCallWakes | boot/linux-handy/fs/pipe.c:19-22 | whatever another task does in a call wakes the sleeper |
| Pipe.CallEndsIff | boot/linux-handy/fs/pipe.c:13-69 | a call that runs stops only when it has moved all it asked for, or the ring is empty, or full for a writer; it then returns exactly if it has moved all or the other end is closed, and sleeps otherwise |
| Pipe.OnlyHeadSleeps | boot/linux-handy/kernel/sched.c:151-165 | as every call wakes the queue before it sleeps, nobody waits behind anybody else |
| Pipe.TakeDrops | boot/linux-handy/fs/pipe.c:25-37 | moving the tail drops bytes from the front, also across the end of the page |
| Pipe.PutAppends | boot/linux-handy/fs/pipe.c:53-65 | storing at the head appends, also across the end of the page, and overwrites nothing unread |
| Pipe.PipeBuffer.ReadSome | boot/linux-handy/fs/pipe.c:17-38 | the read loop up to its sleep takes what there is, as far as it is wanted, and moves the tail by as much |
| Pipe.PipeBuffer.WriteSome | boot/linux-handy/fs/pipe.c:43-66 | the write loop up to its sleep stores what there is room for, leaving one byte free |
| Pipe.PipeInode.ReadPipe | boot/linux-handy/fs/pipe.c:13-39 | read_pipe up to its first sleep, over the page and the wait queues in place |
| Pipe.PipeInode.WritePipe | boot/linux-handy/fs/pipe.c:41-69 | write_pipe up to its first sleep, in place |
| Pipe.PipeInode.GoOn | boot/linux-handy/fs/pipe.c:18-24 | either of them from the return of sleep_on on, in place |
| ExecArgs.Execve | boot/linux-handy/fs/exec.c:193-334 | the new program finds all its arguments and variables again if they and the frames suffice, below them both tables ended by nil; not so exactly for a script called without arguments; which failure it is otherwise, exactly |
| ExecArgs.LaunchIff | boot/linux-handy/fs/exec.c:261-283 | why: argc is one too small exactly then |
| ExecArgs.LaunchShort | boot/linux-handy/fs/exec.c:261-283 | a script called with no arguments fits, is launched, and sees the wrong ones |
| ExecArgs.OverrunHappens | boot/linux-handy/fs/exec.c:125-147 | one variable as long as the block runs below it when all 32 pages can be had |
| ExecArgs.PartsLaunch | boot/linux-handy/fs/exec.c:46-70 | the i-th pointers, read as zero-terminated strings, are the i-th strings |
| ExecArgs.ArgPages.CopyStrings | boot/linux-handy/fs/exec.c:104-152 | the strings end up in order below the ones before, for each way it can fail with the exact condition |
| ExecArgs.ArgPages.CopyString | boot/linux-handy/fs/exec.c:118-147 | one string, copied last byte first |
| ExecArgs.ArgPages.PutByte | boot/linux-handy/fs/exec.c:132-146 | the running offset always addresses the byte meant, and a page is taken exactly when a new one begins |
| ExecArgs.CreateTables | boot/linux-handy/fs/exec.c:46-70 | argc, the two table addresses and both tables, aligned and right below the strings, which are untouched |
| ExecArgs.StackTopIs | boot/linux-handy/fs/exec.c:51-59 | the stack pointer is a multiple of 4, with less than a long between tables and strings |
| ExecArgs.FillTable | boot/linux-handy/fs/exec.c:60-69 | one table: the strings' addresses in order, then nil |
| ExecArgs.CopyGroups | boot/linux-handy/fs/exec.c:261-312 | successive calls stack their strings, succeed exactly when all fit and pages suffice, and run below the block exactly when one of them passes its end and all pages are there |
| ExecArgs.Groups | boot/linux-handy/fs/exec.c:261-281 | which strings are copied in which order, and the count do_execve keeps |
| ExecArgs.ArgumentsAre | boot/linux-handy/fs/exec.c:261-283 | a script's interpreter sees its own name, its argument if there is one, the script's file, and the arguments from the second on |
| ExecArgs.MapPages | boot/linux-handy/fs/exec.c:170-174 | the pages appear at the top of the data segment |
| ExecArgs.UsedIsPages | boot/linux-handy/fs/exec.c:138-141 | the pages taken are those from the lowest byte to the top |
| ExecArgs.FlatAt | boot/linux-handy/fs/exec.c:60-63 | skipping strings leads to the i-th one |
| Glr.GlrStack.CompressStack | bison/biscase/yy_scan_tab.c:2218-2246 | read from bottom to top the stack has the same states, positions and values as before, side by side above the split point; free space plus items used is conserved |
| Glr.CompressKeepsStack | bison/biscase/yy_scan_tab.c:2218-2246 | why: the states moved together are that stack |
| Glr.GlrStack.TurnLinks | bison/biscase/yy_scan_tab.c:2226-2229 | the first loop turns the links above the split point round |
| Glr.GlrStack.CopyState | bison/biscase/yy_scan_tab.c:2238-2245 | a turn of the second loop moves one state down |
| Glr.MoveOne | bison/biscase/yy_scan_tab.c:2237-2245 | no state still to be read is overwritten |
| Glr.GlrStack.MergeChains | bison/biscase/yy_scan_tab.c:1879-1901 | two descending chains, running together or not, become one descending chain of exactly the union, shared by both states |
| Glr.GlrStack.Interleave | bison/biscase/yy_scan_tab.c:1881-1900 | the loop terminates with that chain |
| Glr.GlrStack.MergeOptionSets | bison/biscase/yy_scan_tab.c:1857-1904 | at every position before the right-hand sides meet, a value or the union of the options goes to both states, and nothing else changes |
| Glr.GlrStack.AddDeferredAction | bison/biscase/yy_scan_tab.c:1357-1378 | a new option heads its state's chain, which stays descending |
| Glr.GlrStack.RemoveDeletes | bison/biscase/yy_scan_tab.c:1548-1578 | the stacks that are not deleted move up with their marks |
| Glr.LiveIsFilter | bison/biscase/yy_scan_tab.c:1548-1578 | exactly the live stacks survive, in order |
| Glr.ChainUnique | bison/biscase/yy_scan_tab.c:1885-1886 | two chains that meet are the same from there on |
| Number.Formatted | boot/linux-handy/kernel/vsprintf.c:40-90 | for every set of flags the text is as long as the wider of the field and its contents |
| Number.FormattedDenotes | boot/linux-handy/kernel/vsprintf.c:53-68 | its digits denote the value for every 32-bit number, the most negative one included |
| Number.FormattedIff | boot/linux-handy/kernel/vsprintf.c:40-90 | the text is the only one that is laid out as promised: sign, prefix 0, 0x or 0X, the numeral with zeros up to the precision, and up to the field width blanks behind, zeros inside or blanks in front |
| Number.FormattedLettered | boot/linux-handy/kernel/vsprintf.c:44-47 | letters are small under SMALL and capital otherwise, the x of the prefix included |
| Number.NumeralOnce | boot/linux-handy/kernel/vsprintf.c:63-68 | a number has only one numeral in a base and a case |
| Number.ShownDenotes | boot/linux-handy/kernel/vsprintf.c:63-88 | zeros and digits are digits of the base and denote the amount |
| Number.DigitsDenote | boot/linux-handy/kernel/vsprintf.c:67-68 | the digits denote their number, and none is superfluous |
| Number.DigitCount | boot/linux-handy/kernel/vsprintf.c:43-43 | 32 digits are enough for a word in any base |
| Number.PutDigits | boot/linux-handy/kernel/vsprintf.c:64-68 | the division loop leaves the digits in tmp, within its 36 characters |
| Number.FormatNumber | boot/linux-handy/kernel/vsprintf.c:40-90 | number in place writes the specified text, laid out as promised and in the right case, and refuses bases outside 2 to 36 |
| Number.WrittenIsFormatted | boot/linux-handy/kernel/vsprintf.c:71-88 | of the three loops over the field width exactly one pads, as the flags say |
| Number.SkipAtoi | boot/linux-handy/kernel/vsprintf.c:18-25 | the loop reads the leading digits, with the overflow of its int |
| Number.AtoiUndoesDigits | boot/linux-handy/kernel/vsprintf.c:18-25 | it undoes decimal digits exactly below 2 to the 31st |
| Number.FormatThenRead | boot/linux-handy/kernel/vsprintf.c:18-90 | number followed by skip_atoi gives the value shown exactly when that is below 2 to the 31st |
| Number.PlainIsDigits | boot/linux-handy/kernel/vsprintf.c:40-90 | plain output in base 10 is nothing but those digits |

## Left out

- The first fork (`from == 0` in `copy_page_tables`), where low frames stay writable and uncounted in task 0.
- Low frames mapped in user tables are shown to a task as the frame itself, not as words, as frame 0 is the page directory and changes with every new table.
- The accessed bit of page entries; any claim that a clean page equals its executable; `do_no_page` loading from disk.
- PageManager.PhysicalMemory.SharePage: models counts and write protection only, as the choice of the other task rests on executables that are not part of this model.
- FileSystem.Device.FileWrite: requires the write to end within the largest file; the source panics beyond, in `_bmap`. The same holds for FileRead and MapBlock.
- FileRuns.RunFlat: one device, and each operation is taken as a whole although the source may sleep inside it; zone bits past the last zone may be set by `new_block` without a zone, and count neither as used nor as lost.
- CreateCalls.LossIff: only calls of `create_block` run beside each other; a truncation while one of them sleeps is left out.
- BufferQueues.InsertKeeps: the source stores through `b_next` even when the bucket was empty; the model skips that store.
- BufferQueues.EnhashChain: the same store is skipped.
- BufferCache.Cache.InsertIntoQueues: the same store is skipped in place.
- Getblk.NextKeeps: `b_count` is unbounded here and a byte in the source; `sync_dev`, disk requests and read-ahead appear only as locking, cleaning and unlocking of buffers.
- Getblk.WaitingGets: other tasks stand still meanwhile; a call may be overtaken for ever while they act, as the source does not keep them from it. The same holds for InodeCache.WaitingGets.
- InodeCache.NextKeeps: no mount points, pipes, block devices or inodes without links; `read_inode` and `write_inode` appear only as locks and cleaning.
- InodeCache.RunKeeps: leaves out the same.
- Scheduler.EpochIsFair: priorities are fixed, so `sys_nice` is not modelled; alarms and signals are not either.
- WaitQueues.NextKeeps: only uninterruptible sleep; `interruptible_sleep_on` has other wake rules. Task 0 sleeping, a panic in the source, is no step.
- Timers.NeverEarlyNeverTwice: a timer's function is an action after the tick that calls it, also when it adds timers; the floppy motor and the beeper are left out.
- Pipe.PipeIsFifo: whether the other end is closed is a parameter of every step, copying to and from the caller's memory never sleeps, and the signal a writer gets when nobody reads is left out.
- ExecArgs.Execve: strings are read from the caller as sequences; permissions, the file header and freeing pages after a failure are left out, and so are the page frames that the pointer tables may need below the copied pages, which are faulted in when it is too late to fail. What running below the block does is not modelled.
- Glr.GlrStack.AddDeferredAction: enough free items are required, as growing the stack is left out; semantic values, also the saved one of the lookahead, are integers or left out, and so are locations.
- Glr.GlrStack.MergeOptionSets: states at different positions, and their options, are required to be different, as the parser builds them.
- Number.FormatNumber: width and precision are unbounded integers; `vsprintf` itself is left out.
- Path names, mounting, permissions, the disk and terminal drivers, interrupts and segment registers, the parser's tables, and the scripts elsewhere in the repository.
