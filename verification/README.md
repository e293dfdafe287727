# A verified model of DISCOS: RAM disk, heap and threads

This project models the stateful parts of DISCOS in Dafny, in the form the C code has (classes over arrays,
changed in place by methods with loops), and proves what they promise, for all inputs and over whole runs.
`dafny verify dfyconfig.toml` checks everything.

**The boundary-tag heap** (`Tiling.dfy`, `Heap.dfy`, `HeapRuns.dfy`). An `Arena` is an array of 32-bit words of any
size. `malloc` and `free` write packed headers, back tags and `LASTPTR` into it; a ghost block list says what the
headers mean. The block list is a function of the live blocks alone (`Canonical`), and from that follow that `free`
undoes `malloc` and that draining the heap in any order restores it.

**Queue and scheduler** (`Queue.dfy`, `RoundRobin.dfy`, `Threads.dfy`). The scheduler's arrays refine a small state
machine whose runs are analysed: the invariant, bounded waiting, which dispatch starts a thread and which resume it, and
the heap blocks the threads' stacks occupy.

**The RAM disk** (the other files). `RamDisk` has the superblock counters, the bitmap bytes, the 1024 inodes and the
7931 blocks as fields and arrays. `View()` is the disk as a value (`Disk.dfy`) together with a ghost map that says for
each block in use which pointer of which inode it hangs from; the invariant `Owned` makes that map exact. On top of it:

- files: `FileData`, `FileSteps`, `FileWrite`, `WriteJob`, `WritePath` (where the bytes land), `BlockTour` (which
  blocks a write asks for), `WriteLevels`, `FileIo`, `Overwriting` for `rd_write`; `ReadTape` (which bytes of any file
  a read delivers), `ReadPath` (the same as positions of a text), `FileRead`, `RoundTrip` for `rd_read` and `rd_lseek`;
  `Pieces` for both together, at any alignment; `ClearInode` for giving blocks back; `FdTable`, `OpenClose` for
  descriptors;
- directories: `Directory` (a directory as a plain table of entries), `DirTree` (the table an inode shows),
  `DirSearch`, `DirGrow` and `DirShrink` (search, room for an entry, clearing an entry), `Paths`, `Tree`, `PathWalks`
  and `UserPaths` (names, the tree, path resolution), `Ledgers`, `Creating`, `Create`, `Unlinking`, `Unlink`,
  `CreateUnlink` (creation and removal) and `LifeCycle` (a file from creation to removal);
- runs: `Moves` (the elementary changes that every operation is a chain of), `Losses` (the blocks an unlink loses),
  `Runs`, `RunPaths` and `RunTexts` (any sequence of calls: its accounts, its paths, and the contents of a file);
- failures: `Filling`, `Scenarios`, `Thinning` and `Astray` reach them by calls from the constructor on.

Where a promise of the code's comments is false, the code is modelled as it is, the exact condition under which the
promise holds is proved, and calls that break it are given (lines of `Jiaqian-Ramdisk-Final/kernelspace/discos.c` in
parentheses):

- `rd_write` appends exactly the given bytes iff `InDomain` and enough free blocks (`FileIo.WriteFile`). Outside the
  domain lie zero bytes (the loop never passes one, line 1220), transfers that start inside a block and leave it (the
  offset is not reset, 1219, 1268, 1333) and starts beyond the first double-indirect leaf (the loop restarts at row 0,
  1304; `Overwriting.FarLands` says where the bytes go). Where the bytes go then, which blocks are taken and what is
  returned is given too (`FileIo.RdWrite`, `WritePath.Lands`, `BlockTour.WriteTourIff`), and so is when the file still
  shows a text afterwards, wherever its cursor was: a byte written before the end counts as a new one (1224), so an
  overwrite leaves a size that fits no text (`Overwriting.WriteShowsIff`). Inputs: `Astray.WriteAstray`;
  `Astray.ZeroByteWritten` (a zero byte takes all direct blocks, and the result is 0); `Astray.OverfullWrite`.
- `rd_read` has the same shape limits (`ReadPath.VisitsIff`, `RoundTrip.ReadRightIff`); what it delivers of any file is
  in `RoundTrip.RdRead`. Input: `Astray.ReadAstray`.
- Non-zero pieces written one after the other and read back together: in the direct blocks they come back in order,
  whatever is in them, iff every piece but the last one starts on a block boundary, stays inside one block, or lies in
  the last direct block (`Pieces.BackInOrderIff`, `Pieces.WriteAndReadBack`); so two pieces always do. Input that fails:
  1, 256 and 1 bytes (`Astray.SkewedSizes`, `Astray.OutOfOrder`).
- `rd_unlink` removes one path and no other iff no later block of the level holds exactly one entry
  (`Unlinking.UnlinkedPathsIff`): `findEntry` stays set, so such a block is dropped with the file it names (1052, 1091).
  Input: seventeen files (`Scenarios.FirstUnlinked`).
- `clear_entry_in_current_dir` clears bits without counting the blocks free (1053, 1093, 1103). The counter stays exact
  iff no block between the match and the end of its level has exactly one entry (`Losses.UnlinkExactIff` for one call,
  `Runs.RunExact` for runs; `Losses.UnlinkBalance` and `Runs.RunBalance` give the number lost). Input: the only file of
  the root (`Scenarios.FirstUnlinked`).
- Creating a file and unlinking it restores the bitmap and every inode iff no block behind the leaf that the search for
  room settles on, in its level, has exactly one entry, and that leaf will not be the first of an empty index block
  (`CreateUnlink.CreateUnlinkIff`, a condition on the directory before). Input: `Thinning.UndoneInVain`.
- `rd_create` does not return -1 for an existing name (its comment at 412 says it does): `Create.RdCreate` says when it
  returns 0, and `Creating.CreatedResolves` which file the path then leads to. Beyond the single-indirect level it
  reports success but the entry is lost (547-548), and it may fail although entries and blocks are free; which leaf the
  search for room settles on is in `DirGrow.DirectRoomIff` and `DirGrow.FarRoomIff`. Inputs: `Scenarios.TwiceCreated`,
  `Scenarios.CreateAgain`, `Thinning.FullLeafPassed`.
- `rd_unlink` does not refuse open files (its comment at 798 says it does): `Unlink.RdUnlink` says when it returns 0.
  Input: `Astray.UnlinkedWhileOpen`.
- `rd_lseek` beyond the end moves to the last byte, not behind it (1419): `RoundTrip.RdLseek` gives the position.
- `malloc` of more than 2^32-16 bytes wraps around (`Heap.RequestFitsIff`). Input: `HeapRuns.WrappedRequest`.

A path is *canonical* if it is "/" or "/c1/.../cn" with components of 1 to 13 characters. The calls take any path that
leads through directories; what it means is given by a list of names (`PathWalks.Means`), for a canonical path its
components.

## Model

| member | source | states |
|---|---|---|
| Heap.Arena.constructor | FileSystem-v3/heap.c:25-31 | init_heap over a word array of any size: the block list is the one free block that fills the arena, the headers encode it, and the heap invariant holds |
| Heap.Arena.Macros | FileSystem-v3/heap.c:9-17 | on every well-formed heap the header macros are right: GET_SIZE, GET_ALLOC, NEXT_BLKP and PREV_BLKP give the size, the flag and the physical neighbours of each block, LASTPTR is the last block, and PREV inverts NEXT |
| Heap.Arena.FindFit | FileSystem-v3/heap.c:43-52 | the first-fit walk terminates and stops at the lowest-addressed free block that is large enough, or at NULL exactly if there is none |
| Heap.Arena.PlaceSplit | FileSystem-v3/heap.c:59-72 | the four stores of a split leave headers that encode the split block list, with every back tag and LASTPTR right, and change no payload of another block |
| Heap.Arena.Malloc | FileSystem-v3/heap.c:34-74 | for a request of 1 up to 2^32-16 bytes: invariant kept, the result is the payload of the first fitting block or NULL if there is none, and the payload of every live block is unchanged word for word; for every request the memory changes by exactly the stores of that placement, and not at all for 0 or NULL; above the limit the unsigned arithmetic wraps, so the placement is one of no bytes or of a bare header |
| Heap.RequestFitsIff | FileSystem-v3/heap.c:40-41 | the block size computed in 32 bits has room for the request and its header if and only if the request is at most 2^32-16 |
| HeapRuns.WrappedStores | FileSystem-v3/heap.c:40-72 | what a request above that limit leaves in the heap: a free block without its back tag; a 16-byte block handed out for 8; or a marked block of 8 bytes, with the pointer leading to the header of the free block behind it |
| Heap.Arena.Combine | FileSystem-v3/heap.c:79-89 | merging a block with its free upper neighbour gives the merged block list and keeps every payload |
| Heap.Arena.Free | FileSystem-v3/heap.c:92-114 | freeing a live block removes exactly it from the live set, keeps the invariant (so both free neighbours were absorbed) and every other live payload; NULL changes nothing |
| Tiling.FreedWellFormed | FileSystem-v3/heap.c:99-113 | releasing one block and absorbing a free neighbour on either side leaves a tiling without two adjacent free blocks |
| Tiling.Canonical | FileSystem-v3/heap.c:79-114 | two well-formed heaps with the same live blocks have the same block list |
| HeapRuns.MallocDelivers | FileSystem-v3/heap.c:45-73 | a returned pointer is 8-aligned, has room for the request, lies outside every live block, and every lower free block is too small |
| HeapRuns.MallocFailsIff | FileSystem-v3/heap.c:46-52 | NULL comes back if and only if no free block holds the rounded request plus its header |
| HeapRuns.FreeUndoesMalloc | FileSystem-v3/heap.c:34-114 | free(malloc(n)) restores the block list, whether or not the block was split |
| HeapRuns.RunWellFormed | FileSystem-v3/heap.c:34-114 | every block list of a run, whose steps are placements in the first fit and coalescing releases, tiles the arena and has no two free neighbours, if the first one does |
| HeapRuns.MallocIsStep | FileSystem-v3/heap.c:34-74 | what malloc promises determines its result and is such a step |
| HeapRuns.FreeIsStep | FileSystem-v3/heap.c:92-114 | what free promises determines its result and is such a step |
| HeapRuns.WrappedRequest | FileSystem-v3/heap.c:40-41 | an input above the limit: 2^32-1 bytes are asked of a new heap of 32; the memory is as that placement leaves it, and the pointer that comes back is the address of the header of the block that is still free |
| HeapRuns.NoFragmentationMemory | FileSystem-v3/heap.c:34-114 | over any run of malloc and free, whenever the same blocks are live the whole block list is the same |
| HeapRuns.DrainRestoresInit | FileSystem-v3/heap.c:92-114 | all live blocks can be freed in every order that has each of them once, in no other, and that leads to the single block of init_heap and nowhere else |
| Heap.Arena.Store | FileSystem-v3/thread.c:54-57 | a caller's write into a live payload keeps the headers, the block list and all other live payloads |
| Queue.Fifo.Add | FileSystem-v3/queue.c:28-40 | appends to the contents, or returns 0 and changes nothing exactly if the ring is full |
| Queue.Fifo.Poll | FileSystem-v3/queue.c:43-54 | takes the head of the contents, NULL exactly if they are empty |
| RoundRobin.CreatedInv | FileSystem-v3/thread.c:52-60 | creating a thread keeps the scheduler invariant: the queue holds without duplicates exactly the slots in state new or ready, and the current slot is the only running one |
| RoundRobin.ScheduledInv | FileSystem-v3/thread.c:82-110 | schedule keeps that invariant, and leaves main current exactly if all slots 1..pool_size-1 are empty |
| RoundRobin.FinishedInv | FileSystem-v3/thread.c:74-80 | finish keeps that invariant, with the same condition for main |
| RoundRobin.QueueHasRoom | FileSystem-v3/thread.c:84-89 | the queue is never full when the scheduler adds to it without checking the result |
| RoundRobin.RunInv | FileSystem-v3/thread.c:37-110 | the invariant holds after every run of create, schedule and finish |
| RoundRobin.DispatchedInTurn | FileSystem-v3/thread.c:82-110 | a thread at queue position k is dispatched by the (k+1)-th following dispatch and by none before, whatever is created or finishes meanwhile |
| RoundRobin.WaitBound | FileSystem-v3/thread.c:82-110 | in any run with pool_size-1 dispatches or more, the thread at queue position k has become current, at the end of a first part with k+1 dispatches |
| RoundRobin.StartedOnce | FileSystem-v3/thread.c:52-110 | in any run, as long as a created thread does not finish, its first dispatch after its creation starts it, and every later one resumes it |
| Threads.Scheduler.constructor | FileSystem-v3/thread.c:20-35 | init_thread: three tables taken from the heap, all slots empty, queue empty, main current, invariant established |
| Threads.Scheduler.ThreadCreate | FileSystem-v3/thread.c:37-62 | returns 0 if and only if no slot is empty or the heap has no block for a stack, and then changes nothing, down to the heap's memory; otherwise the lowest empty slot is in state new and queued, with its entry function and finish on its own stack, and no other slot changes |
| Threads.Scheduler.Schedule | FileSystem-v3/thread.c:82-110 | the arrays follow the state machine step; main runs iff all slots are empty; start() rather than resume() is called iff the dispatched thread was new |
| Threads.Scheduler.Finish | FileSystem-v3/thread.c:74-80 | the stack of the running thread, and only that, is freed, once, then the next thread is dispatched: start() rather than resume() is called iff it was new |
| Threads.Scheduler.StacksDisjoint | FileSystem-v3/thread.c:48-58 | in every reachable state the stacks of live threads overlap neither each other nor the pool and queue tables |
| Threads.Scheduler.QuiescentHeap | FileSystem-v3/thread.c:74-98 | when no thread is left the heap block list equals the one right after init_thread |
| Bitmap.SetBitmap | Jiaqian-Ramdisk-Final/kernelspace/discos.c:335-349 | sets exactly bit index; the range check accepts 7931, one more than there are blocks |
| Bitmap.ClearBitmap | Jiaqian-Ramdisk-Final/kernelspace/discos.c:319-332 | clears exactly bit index, with the same range check |
| Bitmap.GetFreeBlockNum | Jiaqian-Ramdisk-Final/kernelspace/discos.c:23-69 | the lowest clear bit below 7931; -1 if and only if the superblock counts no free block or all 7931 bits are set |
| RamDisks.RamDisk.constructor | Jiaqian-Ramdisk-Final/kernelspace/discos.c:72-113 | init_file_sys and its rd_mkdir("/"): everything zeroed, 7931 free blocks, 1023 free inodes, the root a directory in inode 0; the ownership invariant holds |
| RamDisks.RamDisk.AllocateDataBlock | Jiaqian-Ramdisk-Final/kernelspace/discos.c:388-401 | marks, counts and zeroes the block |
| RamDisks.CounterIsEnough | Jiaqian-Ramdisk-Final/kernelspace/discos.c:25-28 | as long as free_blocks is positive some bit is clear, so the allocator's search cannot fail behind its first test |
| RamDisks.RamDisk.NewBlockAt | Jiaqian-Ramdisk-Final/kernelspace/discos.c:1207-1215 | the allocation pattern of every operation succeeds iff a block is counted free, takes the lowest free one, hangs it into the empty slot, and keeps block ownership |
| Disk.AttachedOwned | Jiaqian-Ramdisk-Final/kernelspace/discos.c:1207-1215 | hanging a free block into an empty slot of any level keeps the ownership invariant of the whole disk |
| Disk.StorePtrAt | Jiaqian-Ramdisk-Final/kernelspace/discos.c:1262-1327 | storing a pointer in any slot changes what that slot of that inode leads to, and no other slot of any inode |
| Disk.NoSharing | Jiaqian-Ramdisk-Final/kernelspace/discos.c:388-401 | no two pointers anywhere, of any inode or level, lead to the same block, and each leads to a block whose bit is set |
| FileSteps.OthersMean | Jiaqian-Ramdisk-Final/kernelspace/discos.c:1152-1360 | what happens in one inode's tree moves no pointer and changes no leaf of any other inode |
| FdTable.Table.Lookup | Jiaqian-Ramdisk-Final/kernelspace/discos.c:1164-1180 | although the search compares pos only, it accepts fd iff slot fd is open, and then finds slot fd |
| FdTable.Table.Open | Jiaqian-Ramdisk-Final/kernelspace/discos.c:965-978 | takes the lowest closed slot and fills it; -1 iff all 1024 are open; every slot keeps pos in {0, i} |
| FdTable.Table.CreateFileObject | Jiaqian-Ramdisk-Final/kernelspace/discos.c:982-1002 | the lowest unusable slot, NULL iff there is none |
| FdTable.Table.Release | Jiaqian-Ramdisk-Final/kernelspace/discos.c:1710-1719 | a closed slot is as it was at the start |
| OpenClose.RdOpen | Jiaqian-Ramdisk-Final/kernelspace/discos.c:930-979 | for any path that leads through directories: a descriptor comes back iff the path is not "/" and leads somewhere, its mode permits the flags, and a slot is left, pair by pair for the nine pairs of RD, WR and RW: the flags of the mode, or any on mode RW; on a regular file rd_read accepts the descriptor, and rd_write does iff the flags are not RD; it is the lowest closed slot, at position 0, and nothing else changes |
| OpenClose.PermittedIff | Jiaqian-Ramdisk-Final/kernelspace/discos.c:948-959 | what the three tests on flags and mode add up to: the flags are those of the mode, or the mode is RW |
| LifeCycle.CreateAndOpen | Jiaqian-Ramdisk-Final/kernelspace/discos.c:415-979 | a file is created with one of the three modes and opened with one of the three flags: with a slot left the open succeeds iff the flags are those of the mode or the mode is RW, and rd_write accepts the descriptor iff the flags are not RD |
| OpenClose.RdClose | Jiaqian-Ramdisk-Final/kernelspace/discos.c:1667-1727 | succeeds iff fd is open on something that is not a directory, and closes that slot only |
| FileWrite.FillBlock | Jiaqian-Ramdisk-Final/kernelspace/discos.c:1219-1231 | the innermost loop lays a run of bytes into the block from the given position, moves cursor and size by as many, stops at the end of the block or of the request, and never gets past a zero byte |
| FileWrite.WriteLeaf | Jiaqian-Ramdisk-Final/kernelspace/discos.c:1207-1231 | one round of the loops over leaves: the leaf is there afterwards and carries the bytes, every other byte of the file is as before, and it fails iff the leaf is missing and no block is left |
| WriteLevels.WriteDirect | Jiaqian-Ramdisk-Final/kernelspace/discos.c:1205-1232 | the direct level keeps the file equal to the old text plus the bytes written so far, at the exact cost in blocks; for every file it asks for exactly the leaves of DirectTour, in order, takes a block for each that is missing, and fails iff these are more than are counted free |
| WriteLevels.WriteSingle | Jiaqian-Ramdisk-Final/kernelspace/discos.c:1234-1282 | the same for the single-indirect level, with its index block in front of the leaves |
| WriteLevels.WriteDouble | Jiaqian-Ramdisk-Final/kernelspace/discos.c:1284-1350 | the same for the double-indirect level from leaf 72, with the double-indirect block and each row in front of its leaves; a start beyond leaf 72 restarts at row 0 and lands elsewhere, which is stated as computed |
| FileIo.WriteFile | Jiaqian-Ramdisk-Final/kernelspace/discos.c:1195-1360 | for a file that shows text, with its cursor at the end: the call returns n and the file shows text plus the n bytes if and only if the transfer is in the domain and the growth of the footprint is covered by free_blocks; in the domain but short of blocks it returns -1 and has appended a prefix; always, only this file changed |
| FileIo.RdWrite | Jiaqian-Ramdisk-Final/kernelspace/discos.c:1152-1360 | behind the descriptor and access tests, which reject with -1 and no change, the same for a file that shows text with its cursor at the end; for every other file, cursor and data: the bytes before the first zero byte go, in order, to the positions Lands gives, no other byte of the disk's files changes; the call returns -1 iff the slots of WriteTour that have no block are more than are counted free, and takes a block for each of them in order, as far as there are any, and for nothing else; otherwise 0 or the number laid is returned; a count of zero or less is never reached, so the loops go on to the first zero byte |
| BlockTour.WriteTourIff | Jiaqian-Ramdisk-Final/kernelspace/discos.c:1205-1348 | which leaves and index blocks a write asks for, one by one, from cursor, size and the number of bytes before the first zero byte: in each stage the leaves whose forerunners do not hold all that is left, or all of them if a zero byte follows; an index block iff a leaf of its level, or row, is asked for |
| BlockTour.WriteTourRises | Jiaqian-Ramdisk-Final/kernelspace/discos.c:1205-1348 | they are asked for in the order of the file, an index block in front of its leaves, and none twice |
| BlockTour.PassedIff | Jiaqian-Ramdisk-Final/kernelspace/discos.c:1205-1231 | the loop over the leaves of a level passes a leaf iff the ones before it do not hold all bytes that are left, or a zero byte is to follow |
| WritePath.LandsIff | Jiaqian-Ramdisk-Final/kernelspace/discos.c:1195-1348 | with the cursor at the end, the bytes land right behind it, in order, if and only if the transfer is in the domain that rd_read has as well |
| WritePath.LandsVisits | Jiaqian-Ramdisk-Final/kernelspace/discos.c:1195-1615 | then they land exactly where a read of as many bytes from there would look for them, in the domain or not |
| Overwriting.LandsIncreasing | Jiaqian-Ramdisk-Final/kernelspace/discos.c:1195-1348 | wherever cursor and size are, no byte lands on another one, and a later byte lands behind an earlier one |
| Overwriting.WriteShowsIff | Jiaqian-Ramdisk-Final/kernelspace/discos.c:1195-1360 | after a write at any cursor to a file that shows text, the file shows some text if and only if the bytes laid landed right behind the old end, and then it is the old text and those bytes |
| Overwriting.OverwriteLoses | Jiaqian-Ramdisk-Final/kernelspace/discos.c:1219-1231 | so an overwrite in the direct blocks counts every byte as a new one, and the file shows no text any more |
| Overwriting.CursorIgnored | Jiaqian-Ramdisk-Final/kernelspace/discos.c:1234-1310 | with the cursor behind the direct blocks its place does not matter: the bytes go where the size tells, or nowhere |
| Overwriting.FarLands | Jiaqian-Ramdisk-Final/kernelspace/discos.c:1284-1327 | with the size in the double-indirect level, bytes for one block go to 18432 + 256 * ((size - 18432) / 16384) + size % 256; from size 18688 on that lies in front of the end, over older bytes |
| FileSteps.SettledStep | Jiaqian-Ramdisk-Final/kernelspace/discos.c:1219-1231 | bytes that continue the text in the leaf where it ends make the text longer and take a block exactly if it ended on a block boundary |
| WriteJob.Unpayable | Jiaqian-Ramdisk-Final/kernelspace/discos.c:1208-1213 | a job that runs out of blocks was not covered by free_blocks when it started |
| FileIo.FootprintIs | Jiaqian-Ramdisk-Final/kernelspace/discos.c:1205-1348 | n bytes own exactly ceil(n/256) data blocks, one index block beyond 2048 bytes, and beyond 18432 bytes 1 + ceil((n-18432)/16384) more |
| FileIo.PriceOfGrowth | Jiaqian-Ramdisk-Final/kernelspace/discos.c:1205-1348 | growing a file built by successful writes costs exactly the difference of the two footprints |
| FileRead.ScanBlock | Jiaqian-Ramdisk-Final/kernelspace/discos.c:1509-1520 | the innermost loop copies the non-zero bytes of a block from the given position in order, up to the limit |
| FileRead.ReadLevels | Jiaqian-Ramdisk-Final/kernelspace/discos.c:1501-1615 | of any file, the buffer holds exactly what Delivered says: level by level the non-zero bytes of the leaves passed, each from the same position on, until n are there; the cursor moves by their number |
| ReadTape.DeliveredShown | Jiaqian-Ramdisk-Final/kernelspace/discos.c:1501-1615 | of a file that shows text, a read inside it delivers the bytes at the positions the loops visit |
| FileRead.CopyPages | Jiaqian-Ramdisk-Final/kernelspace/discos.c:1624-1643 | the loop over 4096-byte pages delivers exactly the first n bytes of the buffer and writes nothing beyond |
| ReadPath.VisitsIff | Jiaqian-Ramdisk-Final/kernelspace/discos.c:1501-1615 | a read of n > 0 bytes within the file visits exactly the n bytes from the cursor on if and only if it is in the domain: start at leaf 72 or before, and on a block boundary, inside one block, or in the last block of its level |
| RoundTrip.ReadRightIff | Jiaqian-Ramdisk-Final/kernelspace/discos.c:1501-1615 | rd_read delivers text[c..c+n] for every text of the file if and only if the transfer is in that domain |
| ReadPath.VisitsForNothing | Jiaqian-Ramdisk-Final/kernelspace/discos.c:1505-1525 | a request for no bytes reads none if and only if the cursor is at the end or beyond the direct level |
| ReadPath.FarVisits | Jiaqian-Ramdisk-Final/kernelspace/discos.c:1568-1600 | with the cursor in the double-indirect level, a read inside one block takes its bytes from that same place |
| RoundTrip.RdRead | Jiaqian-Ramdisk-Final/kernelspace/discos.c:1438-1658 | -1 iff the descriptor is unfit or the count exceeds what is left (as unsigned numbers; for a cursor inside the file: iff cursor + count > size), and then no effect; otherwise, whatever the file holds, the result is the number of bytes that Delivered gives, the destination begins with them, nothing changes in it from the count on, and the cursor moves by their number; text[c..c+n] for a text in the domain |
| RoundTrip.RdLseek | Jiaqian-Ramdisk-Final/kernelspace/discos.c:1370-1426 | the new position, where an offset at or behind the end becomes the last byte, and wraps around in an empty file |
| RoundTrip.WriteAll | Jiaqian-Ramdisk-Final/kernelspace/discos.c:1152-1360 | chunks that fit, written one after the other to an empty file, leave it showing their concatenation, for exactly its footprint in blocks |
| RoundTrip.WriteSeekRead | Jiaqian-Ramdisk-Final/kernelspace/discos.c:1152-1658 | write in any pieces that fit, seek to 0, read in any pieces that fit and add up: the bytes read are the bytes written |
| Pieces.WriteAndReadBack | Jiaqian-Ramdisk-Final/kernelspace/discos.c:1152-1658 | pieces without zero bytes are written to a new file at any alignment, all landing in its direct blocks, then the cursor goes to 0 and their total is read: the non-zero bytes of the blocks come back, in order, which are the pieces if all but the last one land straight |
| Pieces.BackInOrderIff | Jiaqian-Ramdisk-Final/kernelspace/discos.c:1205-1526 | pieces of given sizes come back in order, whatever is in them, if and only if every piece but the last one starts on a block boundary, stays inside one block, or lies in the last direct block |
| ClearInode.MyClearInode | Jiaqian-Ramdisk-Final/kernelspace/discos.c:663-722 | clears exactly the bits of the data, index, second-level and double-index blocks of the inode, zeroes exactly those, and raises free_blocks by exactly their number |
| ClearInode.OwnsIs | Jiaqian-Ramdisk-Final/kernelspace/discos.c:663-722 | the blocks given back are exactly those some pointer of the inode's tree leads to |
| ClearInode.OwnsCount | Jiaqian-Ramdisk-Final/kernelspace/discos.c:663-722 | a tree with the given frontier owns exactly as many blocks as the footprint says |
| ClearInode.RemovedConserves | Jiaqian-Ramdisk-Final/kernelspace/discos.c:859-861 | clear bits and free_blocks grow by the same number |
| ClearInode.RemovedOwned | Jiaqian-Ramdisk-Final/kernelspace/discos.c:848-861 | removing a file keeps block ownership for all others |
| ClearInode.RemoveInode | Jiaqian-Ramdisk-Final/kernelspace/discos.c:848-861 | my_clear_inode, the memset of the inode and the count of free inodes together |
| DirSearch.SearchRange | Jiaqian-Ramdisk-Final/kernelspace/discos.c:185-205 | the loops over the leaves of one level find the first match that is not the inode to skip |
| DirSearch.FindEntryInCurrentDir | Jiaqian-Ramdisk-Final/kernelspace/discos.c:726-786 | the three-level search finds the first entry of that name in leaf order, if any |
| Directory.PutKeepsOthers | Jiaqian-Ramdisk-Final/kernelspace/discos.c:462-466 | writing an entry into a free place leaves the lookup of every other name |
| Directory.PutFound | Jiaqian-Ramdisk-Final/kernelspace/discos.c:462-466 | the new name is found iff no entry before it has the same name; otherwise the old entry still is |
| Directory.ClearedForgets | Jiaqian-Ramdisk-Final/kernelspace/discos.c:1026-1107 | after clearing, the name is not found |
| Directory.ClearedKeepsIff | Jiaqian-Ramdisk-Final/kernelspace/discos.c:1026-1107 | all other names are found as before if and only if no later block of the level where the entry was has exactly one entry |
| Filling.SeventeenthFileLost | Jiaqian-Ramdisk-Final/kernelspace/discos.c:1030-1058 | a concrete failing input: of seventeen files in a directory, unlinking the first also loses the last |
| Filling.FirstGoneIff | Jiaqian-Ramdisk-Final/kernelspace/discos.c:1030-1058 | unlinking the first of n files created in an empty directory loses another one iff n is 17, 33, ..., or 113 |
| Filling.FirstDropsIff | Jiaqian-Ramdisk-Final/kernelspace/discos.c:1052-1053 | it drops a block that is not counted free iff n is 1, 17, 33, ..., or 113 |
| Filling.RoomPassedBy | Jiaqian-Ramdisk-Final/kernelspace/discos.c:555-600 | after it, with n = 128, 144, ..., the search for room passes the free first entry by and ends nowhere (128) or in the double-indirect level |
| Directory.ClearedUndoesPut | Jiaqian-Ramdisk-Final/kernelspace/discos.c:1026-1107 | clearing the entry just written gives back the table of the directory, under that same condition |
| DirGrow.LeafEntry | Jiaqian-Ramdisk-Final/kernelspace/discos.c:497-527 | one leaf: its first free entry, or entry 0 of a new block; full and out of blocks told apart, each iff |
| DirGrow.DoubleEntry | Jiaqian-Ramdisk-Final/kernelspace/discos.c:530-551 | a missing row is allocated and used but never stored: both blocks it takes belong to nobody, and the directory shows nothing new |
| DirGrow.GetNextEntry | Jiaqian-Ramdisk-Final/kernelspace/discos.c:555-659 | an entry is returned iff there is room (the leaf wanted exists and the blocks for it are counted free); it lies in the leaf Goal, its first free place; no other table, pointer or size changes; the exact number of blocks is taken |
| DirGrow.DirectRoomIff | Jiaqian-Ramdisk-Final/kernelspace/discos.c:555-592 | in a directory whose size lies in the direct blocks, with a block counted free, there is room iff one of the direct leaves from the size on is missing or has a free entry, and the entry goes to the lowest such leaf |
| DirGrow.FarRoomIff | Jiaqian-Ramdisk-Final/kernelspace/discos.c:594-659 | with the size in the single-indirect blocks, the leaf of the size takes the entry if it is missing or has a free one and the blocks suffice; otherwise, and further behind, the entry goes to the double-indirect level iff the blocks for it are counted free; beyond the tree there is no room |
| DirShrink.ClearOneLeaf | Jiaqian-Ramdisk-Final/kernelspace/discos.c:1030-1059 | one round over a leaf: entries of the name zeroed; from the match on, a leaf that had exactly one entry in use is dropped and its bit cleared, without counting it free |
| DirShrink.ClearEntryInCurrentDir | Jiaqian-Ramdisk-Final/kernelspace/discos.c:1026-1139 | the directory becomes its cleared table; the single-indirect index block goes iff the name was the only entry of its only leaf; ownership is kept, free_blocks and all other files are untouched |
| Paths.ParseAbsolutePath | Jiaqian-Ramdisk-Final/kernelspace/discos.c:128-145 | splits at the last slash |
| Paths.ParsePath | Jiaqian-Ramdisk-Final/kernelspace/discos.c:128-145 | a canonical path parses into the path of its directory and its last component |
| Paths.Strsep | Jiaqian-Ramdisk-Final/kernelspace/discos.c:178 | one call delivers the component before the first slash |
| Paths.SplitPath | Jiaqian-Ramdisk-Final/kernelspace/discos.c:165-178 | splitting a canonical path gives back its components |
| Tree.MyFindInodeNumber | Jiaqian-Ramdisk-Final/kernelspace/discos.c:151-315 | 0 for "/"; for every other path through directories, with empty components or not, the loop computes the walk over the components, -1 if one is not found |
| PathWalks.EveryPathMeans | Jiaqian-Ramdisk-Final/kernelspace/discos.c:151-315 | every path through directories leads where some list of names leads, or nowhere like some list of names |
| PathWalks.TargetParts | Jiaqian-Ramdisk-Final/kernelspace/discos.c:128-315 | if a path leads to anything but the root, the directory part that parse_absolute_path splits off leads to its directory, and its last component is its name there |
| PathWalks.CanonicalMeans | Jiaqian-Ramdisk-Final/kernelspace/discos.c:151-315 | a canonical path leads where its components lead |
| Tree.WalkIsResolve | Jiaqian-Ramdisk-Final/kernelspace/discos.c:178-314 | on a directory tree and with non-empty components that walk, with its cur != pre test, is the fold of find_entry_in_current_dir over the components |
| Tree.EmptyComponent | Jiaqian-Ramdisk-Final/kernelspace/discos.c:178-309 | an empty component leads from any directory but the root back to the root if the directory has a free entry, and nowhere otherwise |
| Tree.ResolveByParts | Jiaqian-Ramdisk-Final/kernelspace/discos.c:128-315 | resolving a canonical path is looking up the parsed file name in the directory the parsed directory part resolves to |
| Tree.UniquePath | Jiaqian-Ramdisk-Final/kernelspace/discos.c:415-480 | two paths that lead to the same inode are the same path |
| UserPaths.FindInodeNumber | Ramdisk/userspace/discos.c:532-686 | the strtok variant is the fold of the lookup over the non-empty components, for every path string |
| UserPaths.CanonicalTokens | Ramdisk/userspace/discos.c:541-584 | on canonical paths strtok and strsep deliver the same components |
| Ledgers.GetFreeInodeNum | Jiaqian-Ramdisk-Final/kernelspace/discos.c:363-376 | the lowest inode with empty type, never 0; -1 iff the counter is 0 or there is none |
| Ledgers.FreeInodesExact | Jiaqian-Ramdisk-Final/kernelspace/discos.c:363-385 | free_inodes equals the number of inodes with empty type |
| Ledgers.FreeInodeThere | Jiaqian-Ramdisk-Final/kernelspace/discos.c:453-457 | behind the first test of rd_create a free inode is always found, so its second error branch is unreachable |
| Ledgers.SameTreeShows | Jiaqian-Ramdisk-Final/kernelspace/discos.c:415-873 | files elsewhere keep their contents through a create or an unlink |
| Creating.CreatedTree | Jiaqian-Ramdisk-Final/kernelspace/discos.c:445-473 | the new entry keeps the directory tree in order: tidy entries, each inode in use entered once |
| Creating.CreatedLedger | Jiaqian-Ramdisk-Final/kernelspace/discos.c:445-473 | the accounts stay balanced: counters, places and directory sizes, without wrap-around |
| Creating.CreatedResolves | Jiaqian-Ramdisk-Final/kernelspace/discos.c:445-473 | the new path leads to the new inode unless an earlier entry has the same name, which then stays the one found; a leaked entry is never found |
| Creating.CreatedFrameAbsent | Jiaqian-Ramdisk-Final/kernelspace/discos.c:445-473 | if the name was absent, every other path resolves as before, including not at all |
| Create.RdCreate | Jiaqian-Ramdisk-Final/kernelspace/discos.c:415-480 | for any path whose directory part leads through directories: -1 if no inode or no block is counted free or the directory does not exist; otherwise, in a directory whose size lies in the direct blocks, 0 iff one of those from the size on is missing or has a free entry, and the entry is in the lowest such leaf, and further behind as FarRoomIff says; then the lowest free inode is entered, for the exact number of blocks; if the name was absent the path is the only one whose meaning changes (none does if the entry leaked); on -1 no path, file or counter sum changes; the invariant is kept |
| Create.RdMkdir | Jiaqian-Ramdisk-Final/kernelspace/discos.c:95-125 | all of this for directories with mode 1, clause by clause; "/" is refused once it exists |
| Unlinking.UnlinkedTree | Jiaqian-Ramdisk-Final/kernelspace/discos.c:848-857 | removing an entry keeps the directory tree in order, even if names occur twice |
| Unlinking.UnlinkedLedger | Jiaqian-Ramdisk-Final/kernelspace/discos.c:851-861 | and the accounts balanced |
| Unlinking.UnlinkedPathsIff | Jiaqian-Ramdisk-Final/kernelspace/discos.c:801-873 | the removed path is gone, and it is the only path that changed its meaning if and only if no later block of the level holds exactly one entry |
| Unlink.RdUnlink | Jiaqian-Ramdisk-Final/kernelspace/discos.c:801-873 | for any path through directories: returns 0 iff it leads somewhere, not to the root and not to a directory of size above 0; on -1 nothing changes; otherwise the file's blocks are given back, the entry is cleared, the invariant is kept, and the paths change as just said |
| Unlink.UnlinkReturns | Jiaqian-Ramdisk-Final/kernelspace/discos.c:848-849 | unlinking a file raises free_blocks by exactly the footprint of its contents |
| CreateUnlink.CreateUnlinkIff | Jiaqian-Ramdisk-Final/kernelspace/discos.c:415-873 | creating a new file and unlinking it restores the bitmap and every inode if and only if, in the directory before, no block behind the leaf that the search for room settles on, in its level, has exactly one entry, and that leaf is not the first of an index block that stands empty; then every path means what it meant; free_inodes is restored always, and free_blocks is lower by exactly the blocks the entry took |
| CreateUnlink.CreateThenUnlink | Jiaqian-Ramdisk-Final/kernelspace/discos.c:415-873 | the same through the two calls, with the exact condition for both to succeed; both conditions are on the disk before the first call |
| CreateUnlink.BehindIff | Jiaqian-Ramdisk-Final/kernelspace/discos.c:415-1107 | the later single-entry blocks that the unlink will drop are the ones behind the leaf the create will choose |
| LifeCycle.Life | Jiaqian-Ramdisk-Final/kernelspace/discos.c:415-1723 | create, open, write in any pieces that fit, seek, read in any pieces that fit, close, unlink: what is read is what was written, the path leads nowhere again, every block of the contents is counted free again, and the invariant holds with the same places as at the start |
| Runs.WritePaths | Jiaqian-Ramdisk-Final/kernelspace/discos.c:1152-1360 | writing a file, however far it gets, changes what no path leads to |
| Runs.FreshOk | Jiaqian-Ramdisk-Final/kernelspace/discos.c:72-113 | the file system after init_file_sys satisfies the invariant |
| Losses.UnlinkBalance | Jiaqian-Ramdisk-Final/kernelspace/discos.c:1030-1107 | free_blocks plus set bits falls by exactly the number of blocks with one entry between the match and the end of its level, plus one if the single-indirect block goes |
| Losses.UnlinkExactIff | Jiaqian-Ramdisk-Final/kernelspace/discos.c:1052-1103 | an unlink keeps that sum if and only if, before the call, no block from the match to the end of its level has exactly one entry |
| Runs.MovedSound | Jiaqian-Ramdisk-Final/kernelspace/discos.c:388-401 | each elementary change (hang a free block, take one, fill, resize, cut, occupy or remove an inode), made under its guard, keeps block ownership and the bound on the counter |
| Runs.StepSound | Jiaqian-Ramdisk-Final/kernelspace/discos.c:415-1360 | so does every write, create, mkdir and unlink, since each is a chain of such changes |
| Runs.StepKeeps | Jiaqian-Ramdisk-Final/kernelspace/discos.c:415-1360 | every write, create, mkdir and unlink, successful or not, keeps the invariant, and free blocks plus set bits never grow |
| Runs.RunSafe | Jiaqian-Ramdisk-Final/kernelspace/discos.c:388-1360 | after any run from the fresh disk no block is referenced from two places, every referenced block has its bit set, free_blocks plus set bits is at most 7931, and free_inodes is exact |
| Runs.RunBalance | Jiaqian-Ramdisk-Final/kernelspace/discos.c:1053-1103 | after any run free_blocks, set bits and the blocks lost by the unlinks so far add up to 7931 |
| Runs.RunExact | Jiaqian-Ramdisk-Final/kernelspace/discos.c:1053-1103 | free_blocks plus set bits is 7931 if and only if no unlink so far met, between the match and the end of its level, a block with exactly one entry |
| RunPaths.RunNeat | Jiaqian-Ramdisk-Final/kernelspace/discos.c:415-873 | as long as every created name was absent, no directory has a name twice or a block without entries |
| RunPaths.StepReachedIff | Jiaqian-Ramdisk-Final/kernelspace/discos.c:415-873 | if every inode in use can be reached by a path, it still can after a step iff the step created no name twice, none in a directory whose room lies in the double-indirect level, and dropped no later single-entry block; each is a condition on the state before |
| RunPaths.RunReachedIff | Jiaqian-Ramdisk-Final/kernelspace/discos.c:415-873 | so every inode in use can be reached throughout a run iff no step of it did one of these three things |
| RunTexts.StepSpares | Jiaqian-Ramdisk-Final/kernelspace/discos.c:415-1360 | a step that wrote, created or removed another file, or failed, leaves the inode, the pointers and the blocks of a regular file alone |
| RunTexts.RunKeepsText | Jiaqian-Ramdisk-Final/kernelspace/discos.c:415-1360 | over any run a regular file shows the same text for as long as no step writes, creates or removes it |
| Runs.CreateIsStep | Jiaqian-Ramdisk-Final/kernelspace/discos.c:415-480 | what rd_create and rd_mkdir promise is a step of such a run |
| Runs.UnlinkIsStep | Jiaqian-Ramdisk-Final/kernelspace/discos.c:801-873 | what rd_unlink promises is one |
| Runs.WriteIsStep | Jiaqian-Ramdisk-Final/kernelspace/discos.c:1152-1360 | what rd_write promises is one |
| Scenarios.FirstUnlinked | Jiaqian-Ramdisk-Final/kernelspace/discos.c:415-1107 | from the constructor: n files are created in the root and the first is unlinked; another path changes its meaning iff n is 17, 33, ..., 113, a block is lost iff n is 1 or one of these; with one file the bitmap is clear and the counter stays at 7930, with seventeen the last file is gone |
| Scenarios.CreateAgain | Jiaqian-Ramdisk-Final/kernelspace/discos.c:497-659 | from the constructor: 128, 144, ... files, the first unlinked, and one created again: -1 with free blocks, inodes and entries at hand (128), or 0 with a path that leads nowhere |
| Scenarios.TwiceCreated | Jiaqian-Ramdisk-Final/kernelspace/discos.c:415-480 | from the constructor: the same path created twice; both calls return 0, the path leads to the first file, and no path to the second |
| Thinning.UndoneInVain | Jiaqian-Ramdisk-Final/kernelspace/discos.c:415-1107 | from the constructor: eighteen files are created in the root, the first, the second and the last unlinked, then a file of any new name created and unlinked; all calls succeed, the condition of CreateUnlinkIff does not hold before the last two, and after them the seventeenth file is reached by no path and one block is neither marked nor counted free |
| Thinning.FullLeafPassed | Jiaqian-Ramdisk-Final/kernelspace/discos.c:555-592 | from the constructor: thirty-two files are created in the root, the second is unlinked, and one more is created: the leaf of the size is full, and the call succeeds with the entry in the next one, which takes a block |
| Astray.WriteAstray | Jiaqian-Ramdisk-Final/kernelspace/discos.c:1205-1232 | from the constructor: 256 more bytes without a zero are written to a file of one byte; the call returns 256, the last byte lies at 257 instead of 256, and the file shows no text any more |
| Astray.ZeroByteWritten | Jiaqian-Ramdisk-Final/kernelspace/discos.c:1205-1231 | from the constructor: some bytes and then a zero byte are written to a new file; the call returns 0, the bytes before the zero are the file's text, and all eight direct blocks are taken |
| Astray.OverfullWrite | Jiaqian-Ramdisk-Final/kernelspace/discos.c:1352-1360 | from the constructor: a file of 1067008 bytes is overwritten from its start with more than 2048 bytes; the call returns 2048, and the size has passed the tree by as many |
| Astray.ReadAstray | Jiaqian-Ramdisk-Final/kernelspace/discos.c:1501-1526 | from the constructor: rd_read of 256 bytes from position 1 of a file of 512 returns 256, and what it delivers are not the 256 bytes there |
| Astray.OutOfOrder | Jiaqian-Ramdisk-Final/kernelspace/discos.c:1205-1526 | from the constructor: for any sizes of pieces in the direct blocks of which one but the last does not land straight (1, 256 and 1 are such), contents are given that rd_read delivers in another order |
| Astray.UnlinkedWhileOpen | Jiaqian-Ramdisk-Final/kernelspace/discos.c:801-873 | from the constructor: a file is unlinked while it is open; the call returns 0, and the descriptor table is as before, with the descriptor open on an inode of no kind |

## Left out

- Create.RdCreate: a new name has 1 to 13 characters; an empty one (a trailing slash) would make an entry without a name, a longer one overruns the 14-byte field, and neither is modelled; the fixed 14-byte field and the temporary C string buffers are represented as strings.
- Pointers are optional block numbers and index blocks hold 64 of them, as the code assumes 4-byte pointers; a zeroed block reads as empty in all three roles of the union.
- Tree.MyFindInodeNumber: paths that pass through a regular file are excluded. The calls are specified for pathnames whose components are directory names (lines 408-409); on others the code reads file contents as directory entries. A path whose directory part is empty (no slash) is excluded from creation and removal, where the code reads behind the end of an empty string.
- UserPaths.FindInodeNumber: paths that pass through a regular file are excluded, for the same reason.
- FileIo.RdWrite: a write through a descriptor of a file that was unlinked while open is excluded; the code would hang blocks into an inode that is not in use. Seeking, reading and closing through such a descriptor are covered.
- RoundTrip.RdRead: requests that pass the test and exceed the 1048576-byte static buffer or the destination are excluded, because the code would write past them.
- FileIo.RdWrite: `EndCount` stands for a count of zero or less, which no loop reaches, by the count just behind the first zero byte, which no loop reaches either; the caller's bytes must contain a zero byte then, or the code reads past them.
- RoundTrip.WriteSeekRead: the pieces are those for which the file goes on showing a text; non-zero pieces at any alignment in the direct blocks are the subject of `Pieces.WriteAndReadBack`; overwriting after a seek, zero bytes and unaligned multi-block transfers further behind are covered call by call, by `FileIo.RdWrite` and `RoundTrip.RdRead`, but are not part of a round trip.
- Unlink.RdUnlink: what the paths mean afterwards is stated for directories in which no name occurs twice and no block is empty (`Neat`, kept by every unlink and by every create of an absent name); the invariant is kept without that.
- ClearInode.RemoveInode: the memset of the inode and the increment of `free_inodes` are done right after `my_clear_inode`, a few lines before the source does them; nothing in between reads or writes that inode.
- DirShrink.DropBlock: the pointer is cleared before the bit, in the source after it; the two stores are independent.
- DirShrink.ClearEntryInCurrentDir: its walk over the double-indirect level changes nothing and is not written out.
- Tree.MyFindInodeNumber: `vfree` and the NULL test of a pointer just incremented are left out.
- FdTable: `get_fd_table` never records a pid, so all processes share one table; one `Table` models it, and per-process isolation is not claimed.
- `rd_chmod`, `cleanup_fs`, the print helpers and `print_bitmap`: no state beyond one field, or none at all.
- Heap.Arena.Free: only blocks that `malloc` returned and that are still live may be freed, as the code assumes.
- Threads.Scheduler: the thread pool and the queue's cells are arrays of their own beside the heap blocks taken for them; those blocks are live and disjoint from all stacks, but their words are not tied to the arrays. The initial heap must have room for the three tables, whose allocation the code does not check in `init_thread`.
- Threads.Scheduler.Schedule: each step is atomic (no interrupt inside `thread_create` or `finish`); saved contexts, `stash`, `trap`, `start` and `resume` are represented by which slot becomes current; what running threads write to their own stacks is left out except for `Heap.Arena.Store`.
- Slot 0 of the pool, the main thread's, is treated as empty and never queued; the code leaves its state uninitialised and never reads it.
- The user-space copy of the file system repeats the same algorithms; only its strtok-based path resolution is modelled.
- The kernel module, the ioctl and user-copy plumbing, the test drivers, the assembly files, the console and the boot memory map.
