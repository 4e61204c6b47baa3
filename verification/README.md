# A verified model of QEMU's block layer, live migration, AES and event loop

The project models the parts of QEMU where state, order and arithmetic interact most, and proves what they promise for
all inputs and all runs:

- requests that wait for each other, copy-on-read, image chains, the dirty bitmap, write merging and byte-granular I/O
  of the block layer (`CopyOnRead`, `ImageChain`, `DirtyBitmap`, `MultiwriteMerge`, `ByteIo`);
- live migration of RAM, from the dirty page scan to the bytes on the wire and the receiver that decodes them
  (`RamWire`, `RamSave`, `RamMigration`, `RamSetup`), over the bitmap primitives (`Words`, `Bitops`, `Alignment`,
  `Bitmap`);
- live migration of block devices, with guest writes, bulk and dirty reads, callbacks and sends in any order
  (`BlockMigration`, `BlockMigrationRuns`, `BlockMigrationRest`, `BlockMigrationPasses`);
- the table-driven AES of FIPS 197 with its equivalent inverse cipher, and CBC of NIST SP 800-38A (`AesField`, `AesSbox`,
  `AesCipher`, `AesKeySchedule`, `Aes`, `AesCbc`, `AesVector`);
- the lists of the event loop, walked while callbacks edit them and poll again (`BottomHalves`, `FdHandlers`, with the
  records of nested walks in `WalkTrace`).

`Basics` holds what they share.

Code that works by updating fields, arrays and lists is imperative Dafny, tied by its postconditions to functions and
predicates about which the lemmas speak. Concurrency (coroutines, asynchronous I/O, the guest) is a transition system
over the steps between two scheduling points; theorems about it quantify over every finite run. Callbacks of the event
loop are arbitrary finite scripts of the calls they may make, nested polls included; a ghost trace records, for each walk
by its depth, which nodes it visited in which state and which callbacks it invoked.

`dafny verify dfyconfig.toml` checks the project.

## Where the code falls short of what one would expect of it

- `multiwrite_merge` drops the tail of an earlier request that reaches past a later one it is merged with
  (`MultiwriteMerge.TailLost`). `MultiwriteMerge.MergeExactDisk` gives the sectors that survive, as an if-and-only-if on
  the requests.
- `ram_save_setup` marks the pages from index 1 to `ram_pages`. Page 0 is in no bitmap unless the dirty log has it, and
  the state after set-up is consistent if and only if page 0 belongs to no block, was logged, or is equal already
  (`RamSetup.SetupConsistency`; `RamSetup.PageZeroLost` is a state that is not). Bit `ram_pages` stands for no page: it
  lies behind the bitmap exactly when `ram_pages` is a positive multiple of 64 (`RamSetup.SetupBitmap`), and it keeps
  `migration_dirty_pages` above 0 in every run (`RamSetup.CounterNeverZero`).
- `ram_save_block` searches forever when nothing is dirty and no block has been sent since the last reset of the scan
  (`RamMigration.SearchNeverEnds`). That is reached right after set-up with a single page (`RamSetup.LonePageLost`) and by
  a reset whenever all pages are clean (`RamMigration.ResetNeverEnds`).
- `bdrv_set_dirty_tracking` on an already tracking device zeroes the counter but not the bits
  (`DirtyBitmap.BlockDriverState.SetDirtyTracking`, an if-and-only-if, and `DirtyBitmap.TrackedTwice`, an input).
- Bulk reads of block migration are not marked in the `aio_bitmap`, so a dirty read of the same chunk can overtake one and
  the older contents arrive last (`BlockMigrationRuns.LateBulkRead`). `BlockMigrationRest.HarmlessExactly` says exactly
  when a dirty submission is harmless, over all ways the run can come to rest;
  `BlockMigrationRuns.MigrationIsConsistent` says that waiting for bulk reads is enough.
- The first walk of `aio_poll` takes the events of a handler once, so its write callback runs even after its read callback
  has deleted the handler (`FdHandlers.QueuedWalkCallsDeleted`, an if-and-only-if for any callbacks, and
  `FdHandlers.FailingInput`). The second walk looks again and never does (`FdHandlers.ReadyWalkServes`).

## Model

| member | source | states |
|---|---|---|
| `CopyOnRead.OneSidedRounding` | block.c:1663-1728 | A newcomer that finds no overlap after rounding only itself to clusters touches clusters disjoint from those of the tracked request, whichever of the two is the copy-on-read |
| `CopyOnRead.ConflictsExactly` | block.c:1663-1692 | The overlap test with the newcomer rounded holds exactly if the two requests touch a common cluster |
| `CopyOnRead.AdmissionExactly` | block.c:2276-2284 | A newcomer waits exactly if a copy-on-read is in flight, itself included, and it touches a cluster some tracked request touches |
| `CopyOnRead.StepKeepsInv` | block.c:1633-1728 | Every step of every request (arrival, retry, driver reads and writes, write-back, end, failure) keeps exclusion, the in-flight count, the freshness of bounce buffers and the waiting order |
| `CopyOnRead.RunKeepsInv` | block.c:2253-2310 | The invariant holds in every state of every interleaved run |
| `CopyOnRead.Serialisation` | block.c:2363-2413 | In every state of every run a tracked copy-on-read and any other tracked request touch disjoint clusters, `copy_on_read_in_flight` is the number of copy-on-read requests between entry and exit, and no requests wait in a cycle |
| `CopyOnRead.NoWaitCycle` | block.c:1694-1728 | A waiter always waits for a request that is tracked, hence not waiting itself, so waits form no cycle |
| `CopyOnRead.StepView` | block.c:2184-2248 | A step changes the guest-visible disk exactly when it is a driver write of a guest request, at that sector and to that value; copying up changes allocation only |
| `CopyOnRead.ViewIsReplay` | block.c:2184-2248 | In every run the guest-visible disk is the initial one with the guest's driver writes applied in order |
| `CopyOnRead.GuestWriteNotLost` | block.c:2386-2410 | Every sector of a write that has succeeded is among the writes applied, whatever copy-on-reads ran meanwhile |
| `CopyOnRead.CopyOnReadResult` | block.c:2196-2248 | A finished copy-on-read has delivered exactly the current guest-visible contents of its sectors, and they are allocated |
| `CopyOnRead.ReadResult` | block.c:2253-2310 | In every run a read that has succeeded, copy-on-read or not, has delivered every sector asked for, each as the guest writes applied up to some moment since its admission left it |
| `CopyOnRead.ReadCurrent` | block.c:2300-2303 | Hence the current contents, if nothing was written to the sector since a state in which the read had not been admitted |
| `CopyOnRead.AllocationGrows` | block.c:2222-2236 | Allocated sectors stay allocated through every run |
| `CopyOnRead.Progress` | block.c:1694-1728 | In every reachable state with requests some request can take a step other than failing: waiting never deadlocks |
| `ImageChain.EmptyLayer` | block.c:1338-1359 | A layer without allocated sectors shows what is below it up to its own end, and everything of it if and only if there is nothing to be seen behind that end, as when it is no shorter than the image it covers |
| `ImageChain.FirstHolderWins` | block.c:2708-2722 | A sector reads from the first image of the chain that has it, if none above ends before it |
| `ImageChain.NoHolderIsZero` | block.c:2708-2722 | Otherwise as zeroes |
| `ImageChain.Swap` | block.c:1241-1336 | Contents are exchanged; everything the device attachment owns stays on its object |
| `ImageChain.Append` | block.c:1347-1359 | The chain becomes new layer, old top, old tail; attached fields stay on the top object; an empty new layer keeps the view up to its end, and the whole view if and only if nothing is hidden behind it, as when it is no shorter than the old top |
| `ImageChain.FindOverlay` | block.c:1770-1794 | The state directly above `bs` in the chain, and nothing exactly when `bs` is not below `active` |
| `ImageChain.DropKeepsView` | block.c:1804-1828 | Taking out layers keeps the view of the whole chain whenever the view from the base down equals the view from the removed top down |
| `ImageChain.DropIntermediate` | block.c:1829-1902 | On success exactly the layers from `top` down to just above `base` leave the chain and lose their backing, the overlay gets `base` as backing, with its file name and format, and no other state changes; on failure nothing changes; the return value in every case: -EIO without a driver or when `base` is not at or below a `top` below `active`, 0 when they are the same layer, otherwise what the driver answers |
| `ImageChain.IsAllocated` | block.c:2723-2744 | The state of the sector and a length over which it stays the same; nothing past the end |
| `ImageChain.CommitSectors` | block.c:1566-1580 | The copying loop changes only shadowed sectors of the backing image, and succeeds, with everything copied, exactly when every sector the top image has is readable, writable and inside the backing image |
| `ImageChain.Commit` | block.c:1533-1603 | On every exit, also partway through a failure, the guest's view is unchanged; after success the backing chain alone shows it over the sectors of the image, and altogether if and only if it shows nothing behind them; the exact return value in every case |
| `DirtyBitmap.BlockDriverState.SetDirtyTracking` | block.c:4252-4271 | The counter counts the bits afterwards exactly when tracking was off or nothing was dirty |
| `DirtyBitmap.TrackedTwice` | block.c:4252-4271 | A device on which tracking, enabled a second time while a chunk is dirty, leaves a zero counter beside a set bit |
| `DirtyBitmap.BlockDriverState.SetDirtyBitmap` | block.c:2026-2052 | Exactly the chunks from that of the first sector to that of the last change, and the counter still counts the set bits |
| `DirtyBitmap.BlockDriverState.GetNextDirty` | block.c:4286-4319 | With its whole-word skip the search ends at the first dirty chunk in cyclic order after the chunk of the argument |
| `DirtyBitmap.FirstHit` | block.c:4286-4319 | Passing only clean chunks in cyclic order up to a dirty one identifies that chunk |
| `DirtyBitmap.NextDirtyIs` | block.c:4286-4319 | That chunk is dirty, and every chunk between the argument's and it, in cyclic order, is clean |
| `MultiwriteMerge.PrefixData` | iov.c:308-327 | Concatenating up to n elements of a vector list keeps exactly the first n elements of its data |
| `MultiwriteMerge.LastWriterWins` | block.c:3410-3464 | Of requests applied in order, the last that covers a byte decides it |
| `MultiwriteMerge.MergeKeepsByte` | block.c:3410-3464 | A sector whose tail is kept gets the same value from the merged requests as from the originals in sorted order |
| `MultiwriteMerge.MergeExact` | block.c:3442-3451 | For distinguishable data a sector keeps its value if and only if no later merge cuts it off uncovered |
| `MultiwriteMerge.MergePreservesDisk` | block.c:3410-3464 | With non-decreasing end sectors the merged requests leave the same disk as the originals, wherever IOV_MAX blocks a merge |
| `MultiwriteMerge.MergeExactDisk` | block.c:3410-3464 | The if-and-only-if for every sector of a disk |
| `MultiwriteMerge.TailLost` | block.c:3442-3451 | Two requests whose merge leaves a different disk |
| `MultiwriteMerge.LeftApart` | block.c:3424-3434 | Neighbours among the requests left have a gap between them, or the first and the original request with which the second starts had too many segments together |
| `MultiwriteMerge.ApartWithFewSegments` | block.c:3432-3434 | Requests left apart although the two of them would fit, because a third has replaced the segments that were in the way |
| `MultiwriteMerge.SegmentsFit` | block.c:3432-3434 | Every request left is one of the originals or has fewer than IOV_MAX segments |
| `MultiwriteMerge.MultiwriteMerge` | block.c:3389-3464 | The in-place loop over the sorted array leaves exactly the merged requests in its first elements |
| `ByteIo.Device.Read` | block.c:2081-2084 | Whole sectors, or failure when one cannot be read or is outside |
| `ByteIo.Device.Write` | block.c:2125-2128 | Whole sectors, or failure when one cannot be written or is outside; a failure may leave anything in its own sectors and nothing elsewhere |
| `ByteIo.Device.Pread` | block.c:2066-2107 | For every offset and count exactly that slice of the flat byte array, and success exactly when all its sectors can be read |
| `ByteIo.Device.Pwrite` | block.c:2111-2158 | For every offset and count exactly that slice changes, through read-modify-write of the partial sectors; success exactly when all its sectors can be written and the partial ones read; on failure nothing outside the sectors that hold the slice changes |
| `ByteIo.GoodBytesExactly` | block.c:2066-2107 | Bytes can be read exactly if the sector of each is on the device and readable |
| `ByteIo.GoodWriteExactly` | block.c:2111-2158 | Bytes can be written exactly if the sector of each is on the device and writable, and every sector they fill only in part is readable |
| `ByteIo.WriteThenRead` | block.c:2066-2158 | Replacing a slice of the flat array gives an array with that slice and all other bytes as before |
| `ByteIo.WriteReadBack` | block.c:2066-2158 | After `bdrv_pwrite` anywhere, `bdrv_pread` of any range returns the written bytes where they overlap and the old ones elsewhere; when each of the two succeeds |
| `Bitops.Ffsl` | bitops.h:31-63 | The halving search returns the lowest set bit |
| `Bitops.Flsl` | bitops.h:69-101 | The halving search returns the highest set bit |
| `Bitops.Ffz` | bitops.h:107-110 | The lowest clear bit |
| `Bitops.ScanIsLeast` | bitops.c:21-67 | The bit-by-bit scan the searches are held against finds the least index at or after the offset with the wanted value, or the size |
| `Bitops.FindNextBit` | bitops.c:21-67 | The word-wise search equals the bit-by-bit scan for every size and offset |
| `Bitops.FindNextZeroBit` | bitops.c:70-112 | The same for clear bits |
| `Bitops.ScanDownIsGreatest` | bitops.c:115-142 | The downward scan finds the greatest set bit, or the size |
| `Bitops.FindLastBit` | bitops.c:115-142 | The word-wise search equals the downward scan for every size |
| `Bitops.SetBit` | bitops.h:117-123 | Exactly one bit changes |
| `Bitops.ClearBit` | bitops.h:130-136 | Exactly one bit changes |
| `Bitops.TestAndSetBit` | bitops.h:156-165 | The old value is returned and exactly one bit changes |
| `Bitops.CountToUpdate` | block.c:2039-2050 | Changing one bit changes the number of set bits by one or not at all, as the bit did |
| `Alignment.AlignUpIsLeast` | bitmap.c:200-200 | Rounding up by division gives the least multiple at or above |
| `Alignment.MaskRoundsUp` | bitmap.c:200-200 | Adding a mask of k ones and clearing it with a bitwise and, on machine words, is that rounding up to a multiple of 2^k while the sum does not wrap around |
| `Bitmap.Fill` | bitmap.c:160-198 | `bitmap_set` and `bitmap_clear` change exactly the bits [start, start + nr), across partial first and last words |
| `Bitmap.FindNextZeroArea` | bitmap.c:214-237 | The least aligned index at or after start with nr clear bits inside size, and a value above size exactly when there is none |
| `Bitmap.AreaArithmetic` | bitmap.c:224-230 | On machine words every sum the search forms is the unbounded one while size, mask and length together do not reach the word's range |
| `RamWire.IsDupPage` | arch_init.c:167-179 | The vector-wise comparison decides whether all bytes of the page are equal, for every vector width |
| `RamWire.BigEndianRoundTrip` | arch_init.c:268-278 | Reading back a number gives the number written |
| `RamWire.BigEndianBytes` | arch_init.c:268-278 | Byte k of n is digit n - 1 - k to base 256: the most significant byte goes first |
| `RamWire.RecordBytes` | arch_init.c:268-278 | Every byte of a page record: the offset, the flags 02, 08 and 20, the name with its length unless it continues, the one byte or the page |
| `RamWire.EosBytes` | arch_init.c:580-581 | The end mark is seven zero bytes and 10 |
| `RamWire.RecordFlags` | arch_init.c:753-855 | What the receiver makes of the flag byte: 04 is refused, 10 ends the section, without 02 and 08 nothing is stored |
| `RamWire.RecordBlock` | arch_init.c:723-751 | The block of a record is the remembered one with flag 20, otherwise the one named by the bytes behind the header |
| `RamWire.RecordStores` | arch_init.c:810-836 | One page is stored, at the offset in the first bytes of the header: filled with the next byte with flag 02, otherwise the next page; and the record is exactly that long |
| `RamWire.HeaderDecodes` | arch_init.c:268-278 | Offset and flags are recovered from the header word |
| `RamWire.HostDecodes` | arch_init.c:723-751 | A block name, or the CONTINUE flag against the remembered block, leads back to the block sent |
| `RamWire.PageRoundTrip` | arch_init.c:448-481 | Decoding an encoded page, compressed or not, named or continued, stores exactly that page at its place and remembers its block |
| `RamWire.EosRoundTrip` | arch_init.c:753-855 | The end-of-section record ends the section and changes nothing |
| `RamWire.LoadAppend` | arch_init.c:753-855 | Loading a concatenation is loading the parts in turn |
| `RamWire.SectionThenRest` | arch_init.c:753-855 | Loading up to the end of a section and then the rest is loading the whole stream |
| `RamWire.Receiver.RamLoad` | arch_init.c:753-855 | The receiver's loop decodes one section as specified, or fails exactly when the specification does |
| `RamSave.RamState.FindAndResetDirty` | arch_init.c:342-356 | The first dirty page of the block from start on is cleared and returned, or nothing is dirty and nothing changes |
| `RamSave.RamState.FindDirty` | arch_init.c:420-447 | The cyclic scan over blocks finds the first dirty page in cyclic order from the current position and clears only it, or no block has a dirty page; it terminates when a block was sent before or something is dirty |
| `RamSave.FirstDirtyUnique` | arch_init.c:420-447 | From one position there is one first dirty page in cyclic order |
| `RamSave.FirstIsFirst` | arch_init.c:420-447 | No dirty page precedes it: the pages at or behind the position come first, then the others, both by block and offset |
| `RamSave.SendIs` | arch_init.c:448-484 | The page sent is the first from the last position, its bit alone is cleared, the counter goes down by one, and flag 20 is set exactly if the block is that of the last page |
| `RamSave.RamState.RamSaveBlock` | arch_init.c:420-484 | The page sent is that first dirty page, no dirty bit is cleared without its page being put on the stream, and -1 means that no block has a dirty page |
| `RamSave.RamState.BitmapSync` | arch_init.c:358-397 | Every logged page of a block becomes dirty and leaves the log, no other page changes, and the counter follows |
| `RamSave.SendKeeps` | arch_init.c:420-484 | Sending a page keeps sender and receiver consistent, and leaves fewer dirty pages |
| `RamSave.SyncKeeps` | arch_init.c:358-397 | Synchronising with the log keeps them consistent |
| `RamSave.DrainedMeansEqual` | arch_init.c:636-653 | With no dirty page and an empty log, loading the stream gives the source's memory |
| `RamSave.RamState.RamSaveComplete` | arch_init.c:636-665 | After the final pass with the guest stopped the loaded stream equals the source on every page of every block |
| `RamMigration.StepKeeps` | arch_init.c:358-484 | Guest writes, syncs and sends keep: any page neither in the bitmap nor in the log is equal on both sides, and the receiver remembers a non-null `last_block` |
| `RamMigration.MigrationIsConsistent` | arch_init.c:585-665 | That holds in every state of every run, and the page counter never drifts from the number of set bits |
| `RamMigration.QuiescentMeansEqual` | arch_init.c:636-665 | Whenever bitmap and log are empty all RAM is equal |
| `RamMigration.SearchNeverEnds` | arch_init.c:420-447 | With nothing dirty and no block sent yet the search goes on after any number of turns |
| `RamMigration.SearchEnds` | arch_init.c:420-447 | With a block sent before and nothing dirty it ends, within one round |
| `RamMigration.SearchFinds` | arch_init.c:420-447 | A dirty page in the block it looks at is found, the first from the offset on |
| `RamMigration.ResetNeverEnds` | arch_init.c:585-602 | From any state with everything clean a reset of the scan leads to such a search |
| `RamSetup.LastRamOffset` | exec.c:2483-2492 | The loop over the blocks finds the end of the last page of any of them: no block ends behind it, and one ends there |
| `RamSetup.SetupBitmap` | arch_init.c:547-549 | The bits set are exactly 1 to `ram_pages`; the last of them is in the word behind the bitmap exactly when `ram_pages` is a positive multiple of 64; the number of bits set inside |
| `RamSetup.RamSaveSetup` | arch_init.c:542-570 | Bitmap, counter, scan position, stream and dirty log after set-up |
| `RamSetup.SetupConsistency` | arch_init.c:542-570 | The state after set-up is consistent if and only if page 0 belongs to no block, was in the dirty log, or is equal already |
| `RamSetup.LonePageLost` | arch_init.c:542-570 | With one page of RAM, not in the log, nothing is dirty after set-up, the two sides are consistent only if equal already, and the first search never ends |
| `RamSetup.PageZeroLost` | arch_init.c:542-570 | An inconsistent state that set-up leaves |
| `RamSetup.CounterNeverZero` | arch_init.c:358-484 | In every run from set-up on `migration_dirty_pages` stays above 0, however many pages are sent |
| `BlockMigration.WriteDataKeeps` | block.c:2394-2406 | A guest write reaching the disk before its dirty bit is set keeps the migration invariant |
| `BlockMigration.GuestWriteIs` | block.c:2394-2406 | A guest write changes the disk first and sets the dirty bit when it ends |
| `BlockMigration.BulkSubmitKeeps` | block-migration.c:196-250 | A bulk read, which passes over chunks of a shared base and clears the chunk's dirty bit, keeps the invariant |
| `BlockMigration.BulkSubmitIs` | block-migration.c:196-250 | It takes the first chunk from the cursor with an allocated sector, or any without a shared base; which fields change: reads out, dirty bit, cursor, counters; the chunk is not marked in flight |
| `BlockMigration.DirtySubmitKeeps` | block-migration.c:353-415 | An asynchronous dirty read keeps the invariant if and only if no outstanding read of the chunk holds outdated contents (or a write to it is under way) |
| `BlockMigration.DirtySubmitIs` | block-migration.c:371-404 | Which fields change: a dirty chunk not in flight loses its dirty bit, is marked in flight and read |
| `BlockMigration.CompleteKeeps` | block-migration.c:179-194 | A callback moves its block to the list and keeps the invariant |
| `BlockMigration.CompleteIs` | block-migration.c:179-194 | Which fields change: what was read goes to the end of the list, the chunk leaves flight, the counters follow |
| `BlockMigration.FlushKeeps` | block-migration.c:445-470 | Sending the oldest block keeps the invariant |
| `BlockMigration.FlushIs` | block-migration.c:445-470 | Which fields change: the oldest block reaches the destination and leaves the list, the counters follow |
| `BlockMigration.SyncSendKeeps` | block-migration.c:392-404 | A synchronous send keeps the invariant |
| `BlockMigration.SyncSendIs` | block-migration.c:392-404 | Which fields change: the chunk reaches the destination as it is on the source, and its dirty bit is cleared |
| `BlockMigrationRuns.RunConserved` | block-migration.c:179-250 | In every run submitted + read_done + transferred is the number of asynchronous reads issued, submitted the number still out and read_done the length of `blk_list` |
| `BlockMigrationRuns.BulkIncreases` | block-migration.c:196-250 | In every run the bulk phase of a device submits chunks in increasing order, each at most once |
| `BlockMigrationRuns.StepKeeps` | block-migration.c:353-470 | Every step of a run that lets no dirty read start while a bulk read of the same chunk is out keeps the invariant |
| `BlockMigrationRuns.MigrationIsConsistent` | block-migration.c:590-617 | Every such run that comes to rest ends with the destination equal to the source on every chunk of every device, whatever the guest wrote |
| `BlockMigrationRuns.LateBulkRead` | block-migration.c:196-250 | Without that care, for any two contents, a run that comes to rest with the older one at the destination |
| `BlockMigrationRest.LastReadWins` | block-migration.c:179-194 | From any state with an outdated read of a clean chunk still out there is a run that comes to rest with what that read holds at the destination |
| `BlockMigrationRest.HarmlessExactly` | block-migration.c:353-415 | Submitting a dirty chunk is harmless, in that every way of coming to rest afterwards leaves both sides equal, if and only if a write to it is under way or no outstanding read of it holds contents other than the disk's |
| `BlockMigrationPasses.BulkTarget` | block-migration.c:196-227 | The next chunk to send: the first from the cursor on that holds an allocated sector, or any without a shared base |
| `BlockMigrationPasses.BlkMigState.MigSaveDeviceBulk` | block-migration.c:196-250 | One call performs exactly the bulk step of the transition system |
| `BlockMigrationPasses.BlkMigState.BulkPass` | block-migration.c:302-341 | Repeated calls submit exactly the chunks with an allocated sector (all without a shared base), once each and in order |
| `BlockMigrationPasses.WantedIs` | block-migration.c:205-227 | Which chunks those are, in sectors |
| `BlockMigrationPasses.BlkMigState.ReadCb` | block-migration.c:179-194 | The callback performs exactly the completion step |
| `BlockMigrationPasses.BlkMigState.DrainAll` | block-migration.c:364-366 | Draining calls back every outstanding read once: the list is the old one followed by one block for each, holding what it read or its error; nothing else but the counters changes, nothing is left in flight, and the invariant is kept |
| `BlockMigrationPasses.FinishedIs` | block-migration.c:179-194 | The block of a read holds what the read was given when it was sampled |
| `BlockMigrationPasses.BlkMigState.MigSaveDeviceDirty` | block-migration.c:353-422 | At most one dirty chunk is submitted, possibly after a drain, or sent: the first from the cursor on, where the cursor then stands; its dirty bit and no other is cleared; 1 means the cursor has reached the end and passed no dirty chunk, and nothing else has happened but a drain |
| `BlockMigrationPasses.BlkMigState.SaveDirtyBlock` | block-migration.c:428-443 | In both modes: one dirty chunk is submitted or sent, or none is left at or behind the cursor of any device, or (synchronously) a dirty chunk cannot be read |
| `BlockMigrationPasses.BlkMigState.CompletePass` | block-migration.c:615-617 | The synchronous pass terminates with no dirty chunk on any device and destination equal to source, if and only if every dirty chunk can be read |
| `BlockMigrationPasses.BlkMigState.FlushBlks` | block-migration.c:445-475 | The longest prefix of good blocks the rate limit allows is delivered in order; the error exactly when a failed read stopped it |
| `BlockMigrationPasses.LastBlockWins` | block-migration.c:445-475 | Of the blocks delivered the last of a chunk decides what the destination holds |
| `BlockMigrationPasses.OthersStay` | block-migration.c:445-475 | Chunks without a block stay as they were |
| `AesSbox.InverseSbox` | aes.c:325-721 | The table of AES_decrypt's last round inverts the one of AES_encrypt's |
| `AesSbox.SboxIsAffineInverse` | aes.c:325-390 | The table is the affine transformation of the multiplicative inverse in GF(2^8), section 5.1.1 of FIPS 197 |
| `AesSbox.MixConstants` | aes.c:46-52 | The multiples of MixColumns are products in GF(2^8) |
| `AesSbox.InvMixConstants` | aes.c:53-58 | So are those of InvMixColumns |
| `AesField.InvMixRowMix` | aes.c:46-58 | The InvMixColumns coefficients undo the MixColumns coefficients |
| `AesCipher.TableColumn` | aes.c:46-52 | Four table lookups and a key word are SubBytes, ShiftRows, MixColumns and AddRoundKey of one column |
| `AesCipher.InvTableColumn` | aes.c:53-58 | The same for the decryption tables |
| `AesCipher.InvRoundsUndo` | aes.c:1076-1261 | After n inverse rounds the state is the cipher's state n rounds before its end, through the transformed keys |
| `AesCipher.DecryptUndoesEncrypt` | aes.c:832-878 | The equivalent inverse cipher of section 5.3.5 of FIPS 197 undoes the cipher for every number of rounds |
| `AesKeySchedule.RconTable` | aes.c:722-726 | The constants are the powers of x in GF(2^8) |
| `AesKeySchedule.KeyWordHead` | aes.c:757-768 | The schedule in bytes: every Nk words the last word, rotated and through the S-box, and the round constant are added to the word Nk before |
| `AesKeySchedule.KeyWordMiddle` | aes.c:811-818 | For 256-bit keys, halfway in between, the last word through the S-box |
| `AesKeySchedule.KeyWordOther` | aes.c:753-824 | Otherwise the last word |
| `AesKeySchedule.Expand128` | aes.c:753-769 | The loop fills the schedule of section 5.2 of FIPS 197 for 128-bit keys |
| `AesKeySchedule.Expand192` | aes.c:770-793 | The same for 192-bit keys, with the loop's early exit |
| `AesKeySchedule.Expand256` | aes.c:794-824 | The same for 256-bit keys, with the extra SubWord |
| `AesKeySchedule.SetEncryptKey` | aes.c:731-827 | The schedule of section 5.2 of FIPS 197 and the number of rounds, or the error of each bad argument |
| `AesKeySchedule.ReverseRoundKeys` | aes.c:847-853 | The in-place swaps reverse the order of the round keys |
| `AesKeySchedule.InvMixByTablesIs` | aes.c:855-876 | The table expression is InvMixColumns of a word |
| `AesKeySchedule.SetDecryptKey` | aes.c:832-878 | The reversed schedule with InvMixColumns on all but the outer round keys, for 128, 192 and 256 bits |
| `Aes.TableRoundIs` | aes.c:980-1037 | One unrolled table round is a round of section 5.1 of FIPS 197 |
| `Aes.FinalTableRoundIs` | aes.c:1039-1069 | The masked lookups of the last round are SubBytes, ShiftRows and AddRoundKey |
| `Aes.InvTableRoundIs` | aes.c:1171-1228 | One unrolled table round of decryption is a round of the equivalent inverse cipher |
| `Aes.InvFinalTableRoundIs` | aes.c:1230-1260 | The last round of decryption |
| `Aes.EncryptBlock` | aes.c:885-1070 | The two-rounds-per-iteration loop with its exit in the middle computes the cipher: Nr - 1 full rounds and the final one |
| `Aes.DecryptBlock` | aes.c:1076-1261 | The loop computes the equivalent inverse cipher |
| `Aes.BlockRoundTrip` | aes.c:1076-1261 | Decrypting an encrypted block gives the block |
| `Aes.DecryptWith` | aes.c:832-1261 | For every key of 128, 192 or 256 bits, setting the decryption key and decrypting a block returns whatever block encrypts to it under that key |
| `Aes.KeyedRoundTrip` | aes.c:731-1261 | For every key of 128, 192 or 256 bits and every block: setting both keys, encrypting and decrypting returns the block |
| `AesVector.ExampleVector` | aes.c:731-1261 | The example of appendix C.1 of FIPS 197: key set, block encrypted to the ciphertext listed there, and decrypted again |
| `AesCbc.CbcRoundTrip` | aes.c:1265-1314 | For every length, partial last block included, decrypting the padded ciphertext with the original IV returns the plaintext |
| `AesCbc.CbcEncBytes` | aes.c:1273-1292 | Block k of the ciphertext encrypts the bytes of the message each added to the byte 16 places before in the ciphertext, or in the IV; behind the end of the message that byte alone |
| `AesCbc.CbcDecBytes` | aes.c:1294-1313 | Each plaintext byte is that of the decrypted block added to the byte 16 places before in the ciphertext, or in the IV |
| `AesCbc.CbcEncSplit` | aes.c:1273-1292 | Splitting a message at a block boundary and threading the IV equals one call, for encryption |
| `AesCbc.CbcDecSplit` | aes.c:1294-1313 | The same for decryption |
| `AesCbc.AesUndoes` | aes.c:1265-1314 | AES with both schedules is such a pair of block functions |
| `AesCbc.CbcEncrypt` | aes.c:1273-1292 | The in-place or out-of-place loop writes the CBC ciphertext and leaves its last block as IV |
| `AesCbc.CbcDecrypt` | aes.c:1294-1313 | The in-place or out-of-place loop writes the plaintext; the IV left behind, for full and partial last blocks |
| `AesCbc.CbcThereAndBack` | aes.c:731-1314 | For every key of 128, 192 or 256 bits, every IV and every length: both keys set, encrypted in place and decrypted in place with the original IV, the bytes are back and those behind the padded length untouched |
| `BottomHalves.AioContext.BhNew` | async.c:42-52 | The new bottom half is in front, neither idle nor scheduled nor deleted |
| `BottomHalves.AioContext.Mark` | async.c:91-118 | Scheduling sets the scheduled flag and, unless it was set, makes idle what the call says; cancelling clears it; deleting clears it and sets the deleted flag; no other flag and no other bottom half changes |
| `BottomHalves.AioContext.Sweep` | async.c:76-86 | The sweep through a pointer to the link unlinks exactly the deleted nodes and keeps the order of the others |
| `BottomHalves.WithoutConcat` | async.c:76-86 | Leaving out nodes keeps the order of the others |
| `BottomHalves.AioContext.VisitNode` | async.c:62-72 | One visit: exactly one invocation if the node is scheduled and not deleted when reached, none otherwise, whatever the callback does at greater depth |
| `BottomHalves.InOrder` | async.c:62-72 | The trace of a walk names the nodes of the list in their order |
| `BottomHalves.OncePerWalk` | async.c:62-72 | It invokes each node once if it was found scheduled and not deleted, and never otherwise |
| `BottomHalves.AioContext.Walk` | async.c:62-72 | Whatever the callbacks do, the walk visits exactly the nodes of its starting list, in order, and invokes each exactly once if it is scheduled and not deleted at that moment and not otherwise; each invocation is counted once; nothing is unlinked under it, and everything pending at its start has been invoked or cancelled |
| `BottomHalves.AioContext.BhPoll` | async.c:54-89 | The same for its walk; what was scheduled and not deleted at the start has run or was cancelled or deleted meanwhile, and what was not has not run unless somebody scheduled it meanwhile; nodes are unlinked only by the outermost poll, exactly the deleted ones; the return value is whether a node that is not idle was invoked |
| `BottomHalves.AioContext.RunCallback` | async.c:62-72 | Any script of calls, nested polls included, keeps the list well linked, and inside a walk only adds in front |
| `FdHandlers.MinusDistinct` | aio-posix.c:180-186 | Unlinking a node from a list of distinct nodes removes it and keeps the others distinct |
| `FdHandlers.AioContext.FindHandler` | aio-posix.c:32-43 | The live handler of a descriptor, if there is one |
| `FdHandlers.AioContext.SetFdHandler` | aio-posix.c:45-94 | Afterwards the descriptor has exactly the given handler or none, other descriptors are untouched, removal is deferred while a walk is under way, and no descriptor ever has two live handlers |
| `FdHandlers.AioContext.VisitQueued` | aio-posix.c:159-179 | What is called, and in which state of the handler, is what the events taken on arrival, the callbacks set and nothing else demand; a side on which no callback is due leaves the handler as it is, so that a callback is left out only for the handler's own state; invocations are counted exactly; queued events are served once |
| `FdHandlers.AioContext.VisitReady` | aio-posix.c:236-256 | What is called is what the ready descriptors and the state of the handler demand, looked at again before the write callback; a side on which no callback is due leaves the handler as it is; invocations are counted exactly |
| `FdHandlers.SnapSane` | aio-posix.c:166-179 | Which queued events, among those asked for, are due for which callback: in, hang-up and error for reading, out and error for writing |
| `FdHandlers.DeletedHandlerCalled` | aio-posix.c:166-179 | A visit of the first walk calls the write callback of a deleted handler if and only if both kinds of event were queued, the handler is deleted when the read callback returns, and its write callback is still set; the read callback never |
| `FdHandlers.ReadyCallsLive` | aio-posix.c:242-254 | A visit of the second walk never calls a deleted handler, and calls exactly what is ready and live; a handler it leaves live, ready and with a write callback has been written to |
| `FdHandlers.AioContext.Step` | aio-posix.c:159-188 | After the callbacks the successor read is the one of the starting list, and only the node itself is unlinked, when deleted and at depth zero; the visit is as above |
| `FdHandlers.AioContext.Walk` | aio-posix.c:159-188 | Whatever the callbacks do, the walk takes exactly the handlers of its starting list, in order, and does on each what its pass demands; the states in which it reached and left each handler lie between those at its start and at its end; the invocations of every handler, nested walks included, are those of the trace; nested walks unlink nothing; the outermost one unlinks all handlers deleted before it and no live one; every queued event is served; progress is returned exactly when a callback was invoked |
| `FdHandlers.WalkInOrder` | aio-posix.c:159-188 | The trace of a walk names the handlers of the list in their order |
| `FdHandlers.QueuedWalkCallsDeleted` | aio-posix.c:159-188 | The same if-and-only-if over a whole first walk, for every handler and any callbacks |
| `FdHandlers.ReadyWalkServes` | aio-posix.c:236-263 | A whole second walk never calls a deleted handler, serves every handler that is ready and live when reached, and has written to each that it leaves live, ready and with a write callback |
| `FdHandlers.FailingInput` | aio-posix.c:159-188 | An input on which the first walk calls a deleted handler: both kinds of event on one descriptor, whose read callback removes it |

## Left out

- XBZRLE and its page cache: the codec is not part of this model, and its cache is bypassed on duplicate pages.
- RamWire.Receiver.RamLoad: the RAM size record, sent once at set-up to compare block lengths, and page offsets outside
  their block are refused.
- TARGET_PAGE_SIZE is fixed at 4096 and `unsigned long` at 64 bits; a machine word is a sequence of 64 booleans.
- A page or chunk reaches the stream with the contents it has at the step that reads it; a page torn by a write during the
  copy is not modelled, since that write leaves it dirty.
- Return codes and section framing of `block_save_iterate` and `block_save_complete`: the passes are modelled, not how
  their 0 and 1 are turned into the results of the stages, nor progress reporting.
- BlockMigrationPasses.BlkMigState.DrainAll: guest writes under way are not completed by it, because the end of a write is
  a step of its own in the transition system, taken between two calls.
- RamSetup.RamSaveSetup: the RAM size record and the end mark it sends are not on the stream, because the receiver's side
  of that section is not modelled.
- The encoding of device blocks on the wire; a block sent is written at the destination at once and in order.
- The dirty bitmap and `aio_bitmap` inside block migration are sets of chunks; the word-level bitmap is `DirtyBitmap`.
- Bitmap.FindNextZeroArea: sums do not wrap around at 64 bits, because sizes are unbounded integers here;
  `Bitmap.AreaArithmetic` says when that makes no difference.
- MultiwriteMerge.MultiwriteMerge: the order `qsort` gives requests with equal start sectors is an argument, because it is
  not stable; any order is allowed.
- ByteIo.Device.Read: which sectors fail to be read, and which to be written, is fixed, because drivers are not modelled.
- ImageChain.Commit: reads and writes fail at given sectors and the outcome of `bdrv_reopen` and `bdrv_make_empty` is an
  argument; flushing is not modelled, because images here have no volatile cache.
- CopyOnRead: requests at least one sector long, a cluster size that divides the device, and drivers that honour their
  allocation contract; zero writes, flushes and request throttling are not modelled.
- Bottom halves and descriptor handlers are modelled apart: they share no state, and the calls a callback makes on the
  other list do not touch this one. `aio_notify`, `select` and the flush callbacks are inputs or not modelled.
- Memory of freed nodes: a freed bottom half or handler is one that is no longer in the list.
- Opening, probing and creating images, filenames, QMP, statistics, throttling, disassemblers, console, Bluetooth, sound,
  and the unrolled AES under FULL_UNROLL: they hold little state of their own, or repeat what the looped form computes.
