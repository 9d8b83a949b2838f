# QEMU 1.0 in Dafny: migration, block layer, bitmaps, AES, bottom halves

This project models the parts of QEMU 1.0 (`front-end/qemu-1.0`) whose correctness rests on arguments
that span several functions or whole runs, and proves them with Dafny 4.11.

* **Live migration of RAM.** `RamLayout` is the list of RAM blocks as a ring of pages, `RamSave` the
  sender (`ram_save_block`, `ram_save_live`), `RamStream` the byte format, `RamLoad` the receiver
  (`ram_load`), `RamRoundTrip` the proof that the two agree and `RamRefused` what is refused. `QemuFile` holds what both migrations
  share of the stream, numbers, names and reads past the end, and `StreamBytes` says which byte of a
  record holds which number. The main results are
  `RamSave.MigrationSafe` (clean pages are at the receiver, so after the last stage both memories are
  equal, through the bytes of the stream) and `RamRoundTrip.SessionRoundTrip`.
* **Live migration of disks.** `BlockMigration` is a step machine over guest writes, asynchronous reads,
  flushes and synchronous sends, and `BlockMigrationHistory` tells its dirty chunks and cursors from the
  history; `BlockMigrationBook` and `BlockMigrationMarks` are the bookkeeping beside it; `BlockMigrationCode` is the code of `block-migration.c` proved to take
  only steps of that machine; `BlockMigrationLimits` says what is lost when reads of one chunk complete
  out of order or a queue is left over. `BlockStream` is the byte format, `BlockStreamCode` `blk_send` and
  `block_load`, `BlockRoundTrip` the proof that the two agree, and `BlockSession` puts all of it together:
  `BlockSession.MigrationLoads` says that loading the bytes of a finished migration, section by section,
  makes the receiver's disks the sender's.
* **Transport.** `BufferedFile` is the rate-limited buffer of `buffered_file.c`.
* **Block layer.** `RequestMerge`, `RequestMergeOrigins` and `RequestMergeCode` (merging of write
  requests), `Multiwrite` (their completion counter), `Commit`, `ByteAccess` and `DirtyBitmap`.
* **Bitmaps.** `Words` are 64-bit words as bit sequences, `Bitops` and `Bitmap` the searches on them.
* **AES.** `GaloisField`, `AesCipher` (the cipher of FIPS 197, sections 5.1 to 5.3), `AesTables` (the
  T-tables by their formulas), `Aes`, `AesBytes` (the cipher byte by byte), `AesKeys` and `Cbc` (section
  6.2 of NIST SP 800-38A).
* **Bottom halves.** `BottomHalf` is the step machine of the re-entrant scheduler in `async.c`,
  `BottomHalfResult` what its polls return, `BottomHalfCode` its linked list and polls.

Code that updates state in place is a class or works on arrays; each such method is proved against a
function or a step of a machine, and the laws are lemmas about those. Concurrency appears as step
machines: every interleaving of enabled steps is a run, and the theorems are about all runs. The
environment assumptions are step guards or `requires` clauses: no read fails and no base image is shared
(disk migration); the guest is stopped in the last stage; `is_allocated` reports runs of at least one
sector in one state. Disk migration is safe on careful runs: a read completes before an older read of its
chunk only while nothing that one has captured has been overwritten, and no queued chunk is passed by a
synchronous send or thrown away. The lemmas about the buffer say which of them need a backend that takes
some of what it is offered or says it is not ready.

Where the code does not do what its comments suggest, the model follows the code:

* `multiwrite_merge` calls overlapping requests a case that is valid for all drivers. A request nested
  inside an earlier one makes it drop the tail of the earlier one (`RequestMerge.NestedWriteLoses`).
  `RequestMerge.MergeExact` says exactly which bytes when touching requests are joined, and
  `RequestMergeOrigins.AnyMergeExact` whichever joins are made.
* `buffered_flush` stops without freezing the file when the backend answers 0 or with an error other than
  "not ready". The loop of `buffered_put_buffer` does not look at the error, so the data being put can
  overtake data still in the buffer (`BufferedFile.BadAnswerReorders`); an answer of 0 is even recorded as
  no error. `BufferedFile.OrderExact` says when.
* `bdrv_commit` overwrites its result when it reopens a backing file read-only, so a commit that failed
  half-way can return 0 (`Commit.FailingWriteReturnsZero`); `Commit.ReliableExact` says for which images
  0 means committed.
* `bdrv_set_dirty_tracking` called on a tracked device zeroes the counter and keeps the bitmap; the
  contract of `DirtyBitmap.TrackedDevice.SetDirtyTracking` says when the two still agree.
* Bulk reads are not marked in flight, so a chunk can be read twice at once, and the last stage throws
  away what the rate limiter left in the queue (`BlockMigrationLimits.OutOfOrderLoses`,
  `BlockMigrationLimits.LeftoverLoses`). `BlockMigration.MigrationSafe` with
  `BlockMigrationLimits.OvertakenLoses`, and `BlockMigrationLimits.LeftoverExact`, say when that loses data.

Representation: pages, sectors and chunks are numbered where the source multiplies by a power of two, and
a flag or-ed into the zero low bits of an offset is added to it. Heap addresses of list entries are names
that are not used twice.

## Model

| member | source | states |
|---|---|---|
| `RamLayout.PageNumberInjective` | front-end/qemu-1.0/cpu-all.h:480-533 | pages of disjoint blocks have different indices in the dirty table, so comparing ram addresses compares places |
| `RamLayout.NextStep` | front-end/qemu-1.0/arch_init.c:161-168 | stepping to the next page, block or back to the first block moves exactly one place along the ring of all pages |
| `RamSave.IsDupPage` | front-end/qemu-1.0/arch_init.c:97-110 | the word-wise comparison holds exactly when every byte of the page is the given one |
| `RamSave.FlagsUpdate` | front-end/qemu-1.0/cpu-all.h:534-564 | writing the flags of one page changes the dirtiness of no other page of any block |
| `RamSave.GuestWriteKeeps` | front-end/qemu-1.0/exec.c:3385-3403 | a guest write keeps "every page is migration-dirty or the receiver holds its contents" |
| `RamSave.SendKeeps` | front-end/qemu-1.0/arch_init.c:128-157 | clearing the flag and sending the page keeps it too, and takes exactly that page out of the dirty set |
| `RamSave.DrainedMeansEqual` | front-end/qemu-1.0/arch_init.c:328-336 | with no page dirty the two memories are equal |
| `RamSave.NextFrom` | front-end/qemu-1.0/arch_init.c:161-171 | one step goes one page further from the start, or completes the ring back to the start after all pages |
| `RamSave.ScanGoesOn` | front-end/qemu-1.0/arch_init.c:127-171 | after a clean page the scan has a last block to compare with, and when it is back at its start no page is dirty |
| `RamSave.RamSaver.GuestWrite` | front-end/qemu-1.0/exec.c:3385-3403 | keeps the invariant of a migration in progress and marks the page |
| `RamSave.RamSaver.EmitPage` | front-end/qemu-1.0/arch_init.c:138-157 | the bytes put are the record of the page, with the block name exactly when the block changed; returns 1 or 4096 |
| `RamSave.RamSaver.PutPage` | front-end/qemu-1.0/arch_init.c:128-159 | one page sent: its flag cleared, its record out, everything kept |
| `RamSave.RamSaver.RamSaveBlock` | front-end/qemu-1.0/arch_init.c:112-177 | ends within one turn of the ring; returns 0 exactly when no page is dirty, and then changes nothing; otherwise sends the first dirty page in ring order; never looks at a missing last block |
| `RamSave.RamSaver.RamSaveRemaining` | front-end/qemu-1.0/arch_init.c:181-197 | the number of dirty pages over all blocks |
| `RamSave.RamSaver.MarkAll` | front-end/qemu-1.0/arch_init.c:278-287 | afterwards every page is migration-dirty |
| `RamSave.RamSaver.RamBytesTotal` | front-end/qemu-1.0/arch_init.c:209-218 | the length of all blocks together |
| `RamSave.RamSaver.PutBlockList` | front-end/qemu-1.0/arch_init.c:292-298 | puts the total and every block's name and length in the format the receiver checks |
| `RamSave.RamSaver.Begin` | front-end/qemu-1.0/arch_init.c:271-299 | the setup of stage 1 establishes the invariant whatever the receiver's memory holds |
| `RamSave.RamSaver.EndSection` | front-end/qemu-1.0/arch_init.c:338 | the end mark completes a section of the stream and keeps the invariant |
| `RamSave.RamSaver.Flush` | front-end/qemu-1.0/arch_init.c:328-336 | the unlimited loop of stage 3 ends with no page dirty |
| `RamSave.RamSaver.RamSaveLive` | front-end/qemu-1.0/arch_init.c:253-342 | every stage keeps the invariant and completes one section; pages are sent while the limiter answers 0 and until none is dirty; the error results; after stage 3 without error no page is dirty and the receiver's memory is the sender's |
| `RamSave.MigrationSafe` | front-end/qemu-1.0/arch_init.c:115-177 | at any time between calls, loading the sections so far gives the receiver the current contents of every clean page; with none dirty, the sender's memory |
| `QemuFile.BeRoundTrip` | front-end/qemu-1.0/savevm.c:686-716 | a number written in big-endian bytes reads back as itself |
| `QemuFile.BeAt` | front-end/qemu-1.0/savevm.c:678-690 | each byte of a number, the most significant first |
| `RamStream.FindOwn` | front-end/qemu-1.0/arch_init.c:364-367 | looking up the name of a block finds that block and no other |
| `RamStream.EncodePagesSnoc` | front-end/qemu-1.0/arch_init.c:130-157 | each record continues from the block of the record before it |
| `RamRoundTrip.CheckBlocksReads` | front-end/qemu-1.0/arch_init.c:401-430 | the block-list loop counts the total down to zero exactly at the end of the list |
| `RamRoundTrip.LocateReads` | front-end/qemu-1.0/arch_init.c:345-373 | a record resolves to the sender's block, by name or because sender and receiver are in step |
| `RamRoundTrip.TurnReadsPage` | front-end/qemu-1.0/arch_init.c:385-463 | one turn of the loop reads exactly one page record and writes exactly that page |
| `RamRoundTrip.PagesRead` | front-end/qemu-1.0/arch_init.c:385-464 | page records decode to the page writes sent, in order, whatever follows them |
| `RamRoundTrip.SectionRoundTrip` | front-end/qemu-1.0/arch_init.c:375-467 | any section of a sender, first or later, loads with result 0 to exactly the pages sent |
| `RamRoundTrip.SessionRoundTrip` | front-end/qemu-1.0/arch_init.c:375-467 | the sections of a whole migration, loaded one by one, give the pages sent in all of them, in order |
| `RamRefused.LoadLonger` | front-end/qemu-1.0/arch_init.c:460-464 | a load that succeeds has met no read error and does not depend on what follows what it has read |
| `RamRefused.TruncatedFails` | front-end/qemu-1.0/arch_init.c:460-463 | a section cut short anywhere is not loaded |
| `RamRefused.CutBetweenRecords` | front-end/qemu-1.0/arch_init.c:460-463 | when the stream ends between records or before the end mark the result is -EIO |
| `RamRefused.ListExact` | front-end/qemu-1.0/arch_init.c:401-430 | the block list of any sender passes exactly when the receiver has every block with that length |
| `RamRefused.StartExact` | front-end/qemu-1.0/arch_init.c:391-430 | the first record of any sender is read to the end of its list, or refused with -EINVAL exactly when a block is missing or differs in length |
| `RamRefused.UnknownBlock` | front-end/qemu-1.0/arch_init.c:432-458 | a fill record for an unknown block is refused with -EINVAL, the bytes of a page would go to no block |
| `StreamBytes.PageRecord` | front-end/qemu-1.0/arch_init.c:130-157 | the bytes of a page record by position, with the numbers of its flags |
| `StreamBytes.StartAndEnd` | front-end/qemu-1.0/arch_init.c:292-338 | the bytes of the first record and of the end mark |
| `StreamBytes.BlockEntry` | front-end/qemu-1.0/arch_init.c:294-298 | the bytes of an entry of the block list |
| `RamLoad.RamLoader.CheckBlockList` | front-end/qemu-1.0/arch_init.c:398-430 | the loop ends on every input, and agrees with the check of names and lengths |
| `RamLoad.RamLoader.HostFromStreamOffset` | front-end/qemu-1.0/arch_init.c:345-373 | finds the place of a record and remembers the block, or fails |
| `RamLoad.RamLoader.ReadPage` | front-end/qemu-1.0/arch_init.c:432-458 | fills or reads the page, refuses an unknown block for a fill record, and says when the write would be outside every block |
| `RamLoad.RamLoader.LoadOne` | front-end/qemu-1.0/arch_init.c:385-463 | one turn of the loop, on every input |
| `RamLoad.RamLoader.RamLoad` | front-end/qemu-1.0/arch_init.c:375-467 | ends on every input with the outcome of the loading function; refuses other versions |
| `BlockMigration.GuestCompleteKeeps` | front-end/qemu-1.0/block.c:1284-1311 | marking the chunks of a write when it completes keeps the invariant |
| `BlockMigration.BulkReadKeeps` | front-end/qemu-1.0/block-migration.c:205-270 | issuing a bulk read and resetting its chunk keeps the invariant |
| `BlockMigration.DirtyReadKeeps` | front-end/qemu-1.0/block-migration.c:379-447 | issuing the read of a dirty chunk keeps the invariant |
| `BlockMigration.ReadCompleteKeeps` | front-end/qemu-1.0/block-migration.c:186-203 | a read that completes before older reads of its chunk keeps the invariant as long as nothing those captured has been overwritten since; in issue order, always |
| `BlockMigration.FlushOneKeeps` | front-end/qemu-1.0/block-migration.c:464-494 | sending the head of the queue keeps the invariant |
| `BlockMigration.SyncSendKeeps` | front-end/qemu-1.0/block-migration.c:421-434 | the synchronous send of the last stage keeps the invariant unless an older copy of the chunk waits in the queue |
| `BlockMigration.StepKeepsInv` | front-end/qemu-1.0/block-migration.c:186-494 | every step keeps "a sector that is clean, passed and not being written is at the destination or on its way there" |
| `BlockMigration.RunKeepsInv` | front-end/qemu-1.0/block-migration.c:558-643 | the invariant holds after every careful run |
| `BlockMigration.DrainedMeansEqual` | front-end/qemu-1.0/block-migration.c:621-640 | nothing dirty and nothing pending means equal disks |
| `BlockMigration.MigrationSafe` | front-end/qemu-1.0/block-migration.c:558-643 | every interleaving, with reads completing in any careful order, that ends drained leaves the destination equal to the source on every sector of every device |
| `BlockMigration.SentIsReplayed` | front-end/qemu-1.0/block-migration.c:86-100 | the destination is what replaying the chunks sent makes of it |
| `BlockMigrationHistory.DirtyMeans` | front-end/qemu-1.0/block.c:1097-1123 | in every run a chunk is dirty exactly when a guest write to it completed after its last transfer began |
| `BlockMigrationHistory.CursorMeans` | front-end/qemu-1.0/block-migration.c:205-270 | the bulk reads of a device take its chunks one after the other, each once |
| `BlockMigrationMarks.AtMostTwo` | front-end/qemu-1.0/block-migration.c:141-184 | in every state of the code at most two reads of a chunk are in flight, and only one when the chunk is not marked; a chunk is marked exactly when no read of it has completed since its last dirty read was issued |
| `BlockMigrationMarks.TrackedDirty` | front-end/qemu-1.0/block-migration.c:405-420 | issuing a dirty read of an unmarked chunk and marking it keeps that |
| `BlockMigrationMarks.TrackedComplete` | front-end/qemu-1.0/block-migration.c:186-203 | so does the completion of any read with the mark cleared |
| `BlockMigrationLimits.OutOfOrderLoses` | front-end/qemu-1.0/block-migration.c:205-270 | a run in which two reads of a chunk complete out of order ends drained with different disks |
| `BlockMigrationLimits.OvertakenLoses` | front-end/qemu-1.0/block-migration.c:186-203 | the converse of the care: once a read has overtaken reads that hold an outdated sector, every later run that ends drained without another guest write to the chunk ends with different disks |
| `BlockMigrationLimits.StaleRun` | front-end/qemu-1.0/block-migration.c:186-494 | an outdated sector that will reach the destination last stays so through every step that leaves the chunk alone |
| `BlockMigrationLimits.LeftoverLoses` | front-end/qemu-1.0/block-migration.c:534-556 | a run whose last stage drops a queued chunk ends drained with different disks |
| `BlockMigrationLimits.LastPhase` | front-end/qemu-1.0/block-migration.c:621-626 | the sends of the last stage make exactly the chunks that were dirty and no longer are what the source holds |
| `BlockMigrationLimits.LeftoverExact` | front-end/qemu-1.0/block-migration.c:621-640 | which sectors the last stage loses, from the queue and what the rate limiter let through: a sector is right exactly when its chunk was dirty, or no block of it is left over, or the last one left over holds what the destination already has |
| `BlockMigrationCode.BlkMig.MigSaveDeviceBulk` | front-end/qemu-1.0/block-migration.c:205-270 | takes the bulk read step exactly when sectors are left, and reports whether any are |
| `BlockMigrationCode.BlkMig.BlkMigReadCb` | front-end/qemu-1.0/block-migration.c:186-203 | takes the completion step, whichever read it is, moves the counters with the lists and clears exactly the mark of its chunk; stays on careful runs when the completion is careful |
| `BlockMigrationCode.BlkMig.FlushBlks` | front-end/qemu-1.0/block-migration.c:464-494 | sends a prefix of the queue, in order, cut only by the rate limit |
| `BlockMigrationCode.BlkMig.AioFlush` | front-end/qemu-1.0/block-migration.c:389-391 | waiting for all requests reaches a state with none in progress, by steps of the machine |
| `BlockMigrationCode.BlkMig.IssueDirtyRead` | front-end/qemu-1.0/block-migration.c:405-434 | takes the dirty read step and marks exactly that chunk in flight |
| `BlockMigrationCode.BlkMig.AwaitChunk` | front-end/qemu-1.0/block-migration.c:389-391 | waits for all requests exactly when the chunk is marked, and leaves it unmarked |
| `BlockMigrationCode.BlkMig.SendDirtyChunk` | front-end/qemu-1.0/block-migration.c:421-434 | takes the synchronous send step |
| `BlockMigrationCode.BlkMig.MigSaveDeviceDirty` | front-end/qemu-1.0/block-migration.c:379-447 | transfers at most one chunk; the asynchronous form leaves the chunk read last and marked, alone in flight and with no write in progress if it was marked before; the synchronous form sends the chunk under the cursor or finds none, and passes no dirty chunk |
| `BlockMigrationCode.BlkMig.BlkMigSaveBulkedBlock` | front-end/qemu-1.0/block-migration.c:332-368 | says the bulk phase is over only when every device is done; otherwise it made progress |
| `BlockMigrationCode.BlkMig.BlkMigSaveDirtyBlock` | front-end/qemu-1.0/block-migration.c:449-462 | in the last stage it fails only when no chunk of any device is dirty, and keeps chunks below the cursors clean; before that it fails only when the search has come to the end of every disk |
| `BlockMigrationCode.BlkMig.BlkMigResetDirtyCursor` | front-end/qemu-1.0/block-migration.c:370-377 | afterwards no chunk lies below a cursor |
| `BlockMigrationCode.BlkMig.BlockSaveLiveIterate` | front-end/qemu-1.0/block-migration.c:558-643 | stage 2 stays on runs of the machine, and on careful ones; ends; what it sends begins with the part of the queue the rate limiter lets through and the destination is the replay of all that was sent; before its last flush the reads fill the rate limit, or the bulk phase is over and the dirty search has ended; offers completion only after the bulk phase and always when nothing is dirty |
| `BlockMigrationCode.BlkMig.BlkMigCleanup` | front-end/qemu-1.0/block-migration.c:534-556 | empties the queue without sending it, which is careful only when it was empty |
| `BlockMigrationCode.BlkMig.BlockSaveLiveComplete` | front-end/qemu-1.0/block-migration.c:621-640 | stage 3 ends with every chunk clean, the source unchanged and the queue empty; every sector of the destination is determined from the queue and the budget, right exactly under the condition of `LeftoverExact`, and all of them are right when the whole queue is let through |
| `BlockMigration.ReplayAppend` | front-end/qemu-1.0/block-migration.c:645-720 | chunks received in two sections act like one list |
| `BlockStream.CutFlattened` | front-end/qemu-1.0/block-migration.c:99 | the sectors of a buffer are read back whatever fills the rest of it |
| `BlockRoundTrip.WriteIsStore` | front-end/qemu-1.0/block-migration.c:685-697 | a chunk cut at the end of the disk is written exactly where the sender read it |
| `BlockRoundTrip.ChunkTurn` | front-end/qemu-1.0/block-migration.c:86-100 | one turn of the loop reads exactly one chunk record, whatever pads its buffer, and stores exactly that chunk |
| `BlockRoundTrip.SectionLoads` | front-end/qemu-1.0/block-migration.c:645-720 | any section of a sender, with progress records anywhere, loads with result 0 to the replay of its chunks, and what follows the end mark is left unread |
| `BlockRoundTrip.LoadLonger` | front-end/qemu-1.0/block-migration.c:659-717 | a load that succeeds does not depend on what follows what it has read |
| `BlockRoundTrip.TruncatedFails` | front-end/qemu-1.0/block-migration.c:712-715 | a section cut short anywhere is refused |
| `BlockRoundTrip.RecordOutcome` | front-end/qemu-1.0/block-migration.c:665-701 | any record with a device name: refused for an unknown or empty device or an address beyond the end, else the sectors of its buffer that fit, and nothing else, are on that disk |
| `BlockRoundTrip.UnknownFlags` | front-end/qemu-1.0/block-migration.c:709-712 | a record with none of the three flags is refused |
| `StreamBytes.ChunkRecord` | front-end/qemu-1.0/block-migration.c:86-100 | the bytes of a chunk record by position, with the number of its flag |
| `StreamBytes.ReportAndEnd` | front-end/qemu-1.0/block-migration.c:359-362 | the bytes of a progress record and of the end mark |
| `BlockSession.RunWhole` | front-end/qemu-1.0/block-migration.c:186-494 | every sector captured, queued or sent is a whole sector |
| `BlockSession.SectionsLoad` | front-end/qemu-1.0/block-migration.c:645-720 | all sections, loaded one by one, replay all chunks in order |
| `BlockSession.SentLoads` | front-end/qemu-1.0/block-migration.c:558-643 | at any point of any run, loading the bytes sent so far gives exactly the destination of the step machine |
| `BlockSession.MigrationLoads` | front-end/qemu-1.0/block-migration.c:558-720 | after every careful run that ends drained, loading the bytes of its sections makes the receiver's disks the sender's, whatever they held before |
| `BlockStreamCode.BlockSender.BlkSend` | front-end/qemu-1.0/block-migration.c:86-100 | puts the record of the chunk and nothing else |
| `BlockStreamCode.BlockLoader.BdrvFind` | front-end/qemu-1.0/block.c:1725-1735 | the first device of that name |
| `BlockStreamCode.BlockLoader.BdrvWrite` | front-end/qemu-1.0/block.c:1003-1030 | replaces exactly the sectors given, or fails with nothing changed when they do not all lie on the disk |
| `BlockStreamCode.BlockLoader.ReadChunk` | front-end/qemu-1.0/block-migration.c:665-701 | unknown or empty device, address outside the disk, or the chunk written; the size remembered from the record before is that of the device |
| `BlockStreamCode.BlockLoader.BlockLoad` | front-end/qemu-1.0/block-migration.c:645-720 | ends on every input with the disks, the rest of the input and the result of the loading function |
| `BufferedFile.FlushConserves` | front-end/qemu-1.0/buffered_file.c:71-108 | whatever the backend answers, flushing loses and reorders nothing, and with an orderly backend it leaves data only when frozen |
| `BufferedFile.PutFromMoves` | front-end/qemu-1.0/buffered_file.c:129-152 | the data sent directly is its head, counted against the limit; none is sent when frozen or over the limit |
| `BufferedFile.PutConserves` | front-end/qemu-1.0/buffered_file.c:110-169 | with an orderly backend a put accepts all its data, in order, within capacity |
| `BufferedFile.OrderExact` | front-end/qemu-1.0/buffered_file.c:110-169 | a put keeps the bytes in order, whatever they are, exactly when it is not the case that the flush stops on a bad answer with bytes left, there is data within the limit, and the next answer takes some of it |
| `BufferedFile.InOrder` | front-end/qemu-1.0/buffered_file.c:110-169 | outside that case what the backend has is the beginning of the stream and a put that succeeds adds its data at the end |
| `BufferedFile.BadAnswerReorders` | front-end/qemu-1.0/buffered_file.c:89-99 | an answer of 0 or any error but "not ready" lets new data overtake old, and the put succeeds |
| `BufferedFile.RunConserves` | front-end/qemu-1.0/buffered_file.c:47-261 | in every run, accepted is delivered followed by buffered, and the buffer is within capacity |
| `BufferedFile.CloseDelivers` | front-end/qemu-1.0/buffered_file.c:171-192 | a close loop that ends has delivered everything |
| `BufferedFile.CloseEnds` | front-end/qemu-1.0/buffered_file.c:178-182 | the close loop goes on until nothing waits, an error is set or the backend has no more answers |
| `BufferedFile.TickSettles` | front-end/qemu-1.0/buffered_file.c:241-261 | a tick that is not frozen starts a new period and leaves bytes waiting only when the backend was not ready or gave a bad answer |
| `BufferedFile.PeriodBound` | front-end/qemu-1.0/buffered_file.c:129-152 | between two ticks the bytes sent past the buffer exceed the limit by at most one put, whatever the backend answers |
| `BufferedFile.RateHolds` | front-end/qemu-1.0/buffered_file.c:218-232 | a rate set before a tick bounds the period after it by a tenth of the rate and one put |
| `BufferedFile.QemuFileBuffered.BufferedAppend` | front-end/qemu-1.0/buffered_file.c:47-69 | appends, growing the capacity when it must |
| `BufferedFile.QemuFileBuffered.BufferedFlush` | front-end/qemu-1.0/buffered_file.c:71-108 | is the flush function |
| `BufferedFile.QemuFileBuffered.BufferedPutBuffer` | front-end/qemu-1.0/buffered_file.c:110-169 | is the put function, with its result |
| `BufferedFile.QemuFileBuffered.BufferedClose` | front-end/qemu-1.0/buffered_file.c:171-192 | is the close loop |
| `BufferedFile.QemuFileBuffered.BufferedRateTick` | front-end/qemu-1.0/buffered_file.c:241-261 | closes the file on an error; otherwise flushes unless frozen, with the transfer count reset |
| `RequestMerge.JoinedByte` | front-end/qemu-1.0/block.c:2344-2362 | every byte of a joined request: the second where it writes, else the first, else zero |
| `RequestMerge.MergeKeepsWrites` | front-end/qemu-1.0/block.c:2305-2374 | requests that end in start order lose nothing by merging, whichever joins are made, and only agreed gaps become zero |
| `RequestMerge.TailFate` | front-end/qemu-1.0/block.c:2344-2347 | merging touching requests leaves a lost tail as it was on disk and every other byte as written |
| `RequestMerge.MergeExact` | front-end/qemu-1.0/block.c:2305-2374 | a byte of every disk is as the unmerged requests leave it exactly when no write holds it beyond the end of a later-starting one without its being written again |
| `RequestMerge.NestedWriteLoses` | front-end/qemu-1.0/block.c:2344-2347 | a request nested in an earlier one makes the merge drop a sector |
| `RequestMerge.OrderedEndsLoseNothing` | front-end/qemu-1.0/block.c:2305-2374 | requests that end in start order have no lost tail |
| `RequestMerge.MergedApart` | front-end/qemu-1.0/block.c:2318-2371 | when no join is refused for length, the requests left are pairwise separated |
| `RequestMerge.AnyOrder` | front-end/qemu-1.0/block.c:2444-2463 | separated requests give the same disk in any completion order |
| `RequestMergeOrigins.MergedMeans` | front-end/qemu-1.0/block.c:2338-2364 | which write each byte of the merged list comes from, or that it is filler or untouched |
| `RequestMergeOrigins.AnyMergeExact` | front-end/qemu-1.0/block.c:2305-2374 | for any joins, a byte is as the unmerged requests leave it on every disk, whatever they write, exactly when it is not cut off by a join and not filled in a joined gap |
| `RequestMergeCode.IovecConcat` | front-end/qemu-1.0/cutils.c:178-214 | appends exactly the first bytes asked for, with no more buffers than the source has |
| `RequestMergeCode.JoinRequests` | front-end/qemu-1.0/block.c:2338-2364 | builds the joined request |
| `RequestMergeCode.JoinRequestMeans` | front-end/qemu-1.0/block.c:2338-2364 | the joined request writes the join of the two, and its vector matches its sector count |
| `RequestMergeCode.SortRequests` | front-end/qemu-1.0/block.c:2284-2311 | sorted by start sector, and a permutation |
| `RequestMergeCode.MergeNext` | front-end/qemu-1.0/block.c:2317-2371 | one turn of the loop: the driver is asked about, and the vectors counted of, the request standing and the next one |
| `RequestMergeCode.MultiwriteMerge` | front-end/qemu-1.0/block.c:2305-2374 | the array is sorted and left holding exactly the requests that joining to the standing request leaves, and they write the merge of the sorted requests |
| `RequestMergeCode.LeftMeans` | front-end/qemu-1.0/block.c:2317-2371 | the requests left write what the merge of the writes says, with vectors that match their sector counts |
| `RequestMergeCode.GapsAgreed` | front-end/qemu-1.0/block.c:2320-2332 | bytes between requests are zeroed only where the driver agreed to join the request standing and the next one |
| `RequestMergeCode.ApartExact` | front-end/qemu-1.0/block.c:2334-2336 | the requests left are pairwise separated exactly when no touching pair of a standing request and the next one has too many buffers together |
| `RequestMergeCode.FewBuffers` | front-end/qemu-1.0/block.c:2334-2336 | when all buffers together, and one for each request, fit IOV_MAX no pair is refused |
| `RequestMergeCode.PlainMerge` | front-end/qemu-1.0/block.c:2320-2336 | when no pair is refused and the driver agrees to no pair that comes up, exactly the touching requests are joined |
| `Multiwrite.FirstNegativeMeans` | front-end/qemu-1.0/block.c:2271-2273 | the recorded error is the first negative result, or 0 when there is none |
| `Multiwrite.StepKeepsInv` | front-end/qemu-1.0/block.c:2253-2282 | every step keeps the count of outstanding work right, and nothing completes on a freed structure |
| `Multiwrite.CallbacksRunOnce` | front-end/qemu-1.0/block.c:2408-2476 | in every interleaving each user callback runs exactly once, after the last submission and the last completion, with the first negative result; none runs when the first submission fails |
| `Multiwrite.NothingLeft` | front-end/qemu-1.0/block.c:2408-2476 | a run that can go no further has called everybody or failed early |
| `Multiwrite.MultiwriteCB.UserCb` | front-end/qemu-1.0/block.c:2253-2265 | calls every user callback once, in order, with the error |
| `Multiwrite.MultiwriteCB.Cb` | front-end/qemu-1.0/block.c:2267-2282 | records the first error, counts down and, at zero, calls and frees |
| `Multiwrite.MultiwriteCB.SubmitNext` | front-end/qemu-1.0/block.c:2445-2463 | takes the submission step |
| `Multiwrite.MultiwriteCB.Submit` | front-end/qemu-1.0/block.c:2441-2476 | returns 0 or -1 and has called the callbacks exactly when nothing is outstanding |
| `Multiwrite.BdrvAioMultiwrite` | front-end/qemu-1.0/block.c:2390-2476 | without a driver or when the first submission fails every request has the error and no callback runs; otherwise the error fields are untouched and the callbacks report |
| `Commit.HiddenWrite` | front-end/qemu-1.0/block.c:921-937 | writing the backing image under sectors the overlay holds is not visible |
| `Commit.EmptyExact` | front-end/qemu-1.0/block.c:939-942 | emptying the overlay keeps the image exactly when it held only what would be seen without it |
| `Commit.CopyKeeps` | front-end/qemu-1.0/block.c:924-937 | the copying loop is never visible, and when it succeeds every held sector is in the backing image |
| `Commit.CommitKeepsImage` | front-end/qemu-1.0/block.c:868-970 | however a commit ends, whichever operation fails, a reader of overlay over backing sees what was there before |
| `Commit.ResultExact` | front-end/qemu-1.0/block.c:951-970 | with both reopens working the result is 0 exactly when the backing file was read-only or everything succeeded; when everything succeeded the overlay is copied down, or empty if it can be emptied |
| `Commit.ReopenFails` | front-end/qemu-1.0/block.c:897-918 | the result of a failing reopen, and that the drive is out of service exactly when the read-only reopen fails |
| `Commit.FailingWriteReturnsZero` | front-end/qemu-1.0/block.c:951-970 | a read-only backing file, a held sector and a failing write: the result is 0 |
| `Commit.ReliableExact` | front-end/qemu-1.0/block.c:868-970 | a result of 0 means committed, whatever fails, exactly when the backing file was not read-only or nothing is held or the commit is refused at once |
| `Commit.Image.BdrvCommit` | front-end/qemu-1.0/block.c:868-970 | is the commit function, reopening included; however it ends the visible image is unchanged; the three refusals change nothing |
| `ByteAccess.Disk.Pread` | front-end/qemu-1.0/block.c:1137-1180 | returns exactly the bytes asked for |
| `ByteAccess.Disk.Pwrite` | front-end/qemu-1.0/block.c:1182-1229 | changes exactly the bytes given; after a failure a prefix of them |
| `ByteAccess.ReadAfterWrite` | front-end/qemu-1.0/block.c:1137-1229 | a read after a write returns what was written, and other bytes are as before |
| `DirtyBitmap.DirtyAfterMeans` | front-end/qemu-1.0/block.c:1097-1123 | a chunk is dirty exactly when some request wrote it after its last reset |
| `DirtyBitmap.WordUpdate` | front-end/qemu-1.0/block.c:1106-1122 | the shifts and masks change exactly one bit of the bitmap |
| `DirtyBitmap.WordTest` | front-end/qemu-1.0/block.c:3052-3063 | the mask tests exactly that bit |
| `DirtyBitmap.TrackedDevice.SetDirtyBitmap` | front-end/qemu-1.0/block.c:1097-1123 | the bitmap shows the history with the request added and the counter equals the number of set bits |
| `DirtyBitmap.TrackedDevice.SetDirtyTracking` | front-end/qemu-1.0/block.c:3031-3050 | switching on from off starts clean; switching on again keeps bitmap and counter in agreement exactly when nothing was dirty |
| `DirtyBitmap.TrackedDevice.GetDirty` | front-end/qemu-1.0/block.c:3052-3063 | true exactly when tracked, in range and written since the last reset |
| `DirtyBitmap.RemainingDirty` | front-end/qemu-1.0/block-migration.c:496-506 | the number of dirty chunks of all devices together, so zero exactly when none is dirty |
| `Bitops.Ffsl` | front-end/qemu-1.0/bitops.h:31-61 | the least set bit of a nonzero word |
| `Bitops.Flsl` | front-end/qemu-1.0/bitops.h:69-99 | the greatest set bit of a nonzero word |
| `Bitops.Ffz` | front-end/qemu-1.0/bitops.h:107-110 | the least clear bit of a word that has one |
| `Bitops.FindNextBit` | front-end/qemu-1.0/bitops.c:21-64 | the least set position from the offset on, or the size |
| `Bitops.FindNextZeroBit` | front-end/qemu-1.0/bitops.c:70-113 | the least clear position from the offset on, or the size |
| `Bitops.FindLastBit` | front-end/qemu-1.0/bitops.c:115-142 | the greatest set position, or the size |
| `Bitmap.BitmapSet` | front-end/qemu-1.0/bitmap.c:160-178 | sets exactly the range |
| `Bitmap.BitmapClear` | front-end/qemu-1.0/bitmap.c:180-198 | clears exactly the range |
| `Bitmap.AlignMaskRoundsUp` | front-end/qemu-1.0/bitmap.c:200 | the mask, by its bits, rounds up to the least aligned index |
| `Bitmap.BitmapFindNextZeroArea` | front-end/qemu-1.0/bitmap.c:214-237 | the least aligned index of a free area inside the bitmap, or a value above the size exactly when there is none |
| `GaloisField.MixColumnInverse` | front-end/qemu-1.0/aes.c:46-58 | the inverse column matrix undoes the column matrix over GF(2^8) |
| `GaloisField.InvMixColumnLinear` | front-end/qemu-1.0/aes.c:853-876 | the inverse matrix distributes over addition, which is why it may be applied to round keys |
| `AesCipher.InvRoundUndoesRound` | front-end/qemu-1.0/aes.c:1171-1260 | a round of the equivalent inverse cipher, with the inverse-mixed key, undoes a round |
| `AesCipher.InverseCipherUndoesCipher` | front-end/qemu-1.0/aes.c:832-878 | the equivalent inverse cipher of FIPS 197 section 5.3.5 under the inverse schedule undoes the cipher, for every number of rounds |
| `AesTables.TeWordMixes` | front-end/qemu-1.0/aes.c:980-1005 | four table look-ups and a key word are SubBytes, ShiftRows, MixColumns and AddRoundKey on a column |
| `AesTables.TdWordMixes` | front-end/qemu-1.0/aes.c:1171-1196 | the same for the inverse round |
| `AesTables.Te4WordSubstitutes` | front-end/qemu-1.0/aes.c:1038-1069 | the masked look-ups of the last round are the round without MixColumns |
| `AesTables.Td4WordSubstitutes` | front-end/qemu-1.0/aes.c:1229-1260 | the same for the last inverse round |
| `AesTables.InvMixWordMixes` | front-end/qemu-1.0/aes.c:853-876 | looking up Td of Te4 of each byte applies the inverse column matrix to a key word |
| `Aes.TeRound` | front-end/qemu-1.0/aes.c:980-1005 | the four words of a table round are the FIPS 197 round of the whole state |
| `Aes.TdRound` | front-end/qemu-1.0/aes.c:1171-1196 | the same for the inverse round |
| `Aes.AesEncrypt` | front-end/qemu-1.0/aes.c:885-1070 | writes the FIPS 197 cipher of the block, in place or not, and nothing else |
| `Aes.AesDecrypt` | front-end/qemu-1.0/aes.c:1076-1261 | writes the equivalent inverse cipher of the block, and nothing else |
| `AesBytes.RoundAt` | front-end/qemu-1.0/aes.c:980-1005 | every byte of a round: which four bytes of the state it comes from, times 2, 3, 1 and 1, and the key |
| `AesBytes.EncryptByBytes` | front-end/qemu-1.0/aes.c:885-1070 | what AES_encrypt computes is the byte-wise cipher of the block under the bytes of the schedule |
| `AesKeys.RconTable` | front-end/qemu-1.0/aes.c:722-726 | the table of round constants is the powers of x |
| `AesKeys.RotStepMeans` | front-end/qemu-1.0/aes.c:757-764 | the masked look-ups of the schedule are SubWord of RotWord |
| `AesKeys.ExpansionByBytes` | front-end/qemu-1.0/aes.c:755-825 | every byte of the schedule from the bytes before it: rotated by one, substituted and with the constant in the first byte every nk words, substituted once more for long keys, plain otherwise |
| `AesKeys.Expand128` | front-end/qemu-1.0/aes.c:755-773 | the unrolled loop computes the key expansion of section 5.2 |
| `AesKeys.Expand192` | front-end/qemu-1.0/aes.c:776-795 | the same for 192 bits |
| `AesKeys.Expand256` | front-end/qemu-1.0/aes.c:798-825 | the same for 256 bits |
| `AesKeys.SetEncryptKey` | front-end/qemu-1.0/aes.c:731-827 | the schedule of section 5.2 for a legal size, in words and byte by byte; the error codes otherwise |
| `AesKeys.ReverseRoundKeys` | front-end/qemu-1.0/aes.c:843-851 | the in-place swaps reverse the round keys |
| `AesKeys.InvMixMiddle` | front-end/qemu-1.0/aes.c:852-876 | every round key but the first and last is inverse-mixed |
| `AesKeys.SetDecryptKey` | front-end/qemu-1.0/aes.c:832-878 | the schedule of section 5.3.5, the error codes otherwise |
| `AesKeys.DecryptUndoesEncrypt` | front-end/qemu-1.0/aes.c:731-878 | for every key of a legal size and every block, decryption undoes encryption |
| `Cbc.DecryptedEncrypted` | front-end/qemu-1.0/aes.c:1265-1314 | CBC decryption undoes CBC encryption for every length |
| `Cbc.EncryptedSplit` | front-end/qemu-1.0/aes.c:1265-1294 | a message may be split at any block boundary, carrying the vector over |
| `Cbc.DecryptedSplit` | front-end/qemu-1.0/aes.c:1295-1314 | the same for decryption |
| `Cbc.DecryptedIvSplit` | front-end/qemu-1.0/aes.c:1295-1314 | the carried vector of decryption composes |
| `Cbc.EncryptedChains` | front-end/qemu-1.0/aes.c:1276-1294 | every block of output is the cipher of the message xor the block of output before, or the initial vector, with that block's bytes where the message has ended; the last block is the vector left |
| `Cbc.DecryptedChains` | front-end/qemu-1.0/aes.c:1296-1313 | every byte of output is that of the deciphered block xor the byte of input one block before |
| `Cbc.CbcEncrypt` | front-end/qemu-1.0/aes.c:1265-1294 | output and vector are those of CBC, chained byte by byte, in place or not, for every length |
| `Cbc.CbcDecrypt` | front-end/qemu-1.0/aes.c:1295-1314 | the same for decryption, with the vector the code leaves after a partial block |
| `Cbc.CbcRoundTrip` | front-end/qemu-1.0/aes.c:1265-1314 | with the schedules of one key, decryption of what was encrypted is the message, for every key size and length |
| `BottomHalf.CursorsKeep` | front-end/qemu-1.0/async.c:58-91 | no step frees an entry that a poll in progress has saved as next |
| `BottomHalf.EarnedKeeps` | front-end/qemu-1.0/async.c:58-121 | a call uses up one scheduling |
| `BottomHalf.DeletedKeeps` | front-end/qemu-1.0/async.c:66-73 | a deleted entry stays deleted and is not called |
| `BottomHalf.StepKeepsInv` | front-end/qemu-1.0/async.c:44-121 | every step keeps the list, the saved entries, the counts and the deleted entries right |
| `BottomHalf.PollsAreSafe` | front-end/qemu-1.0/async.c:44-121 | in every run with any nesting: no poll holds a freed entry, each scheduling is called at most once, no entry is called after its deletion |
| `BottomHalf.OutermostSweeps` | front-end/qemu-1.0/async.c:76-89 | when the outermost poll returns the deleted entries are gone and all others are as they were |
| `BottomHalf.DueUntil` | front-end/qemu-1.0/async.c:58-121 | over any run a due entry stays due until it is called or its call is called off |
| `BottomHalfResult.IdleMeans` | front-end/qemu-1.0/async.c:94-110 | in every run the idle flag of a scheduled entry tells which of the two calls last scheduled it |
| `BottomHalfResult.ResultSoFar` | front-end/qemu-1.0/async.c:55-92 | a poll in progress will return true exactly when it has itself called an entry last scheduled by qemu_bh_schedule |
| `BottomHalfResult.PollResult` | front-end/qemu-1.0/async.c:55-92 | the same for a whole poll, whatever is nested in it |
| `BottomHalfCode.UnlinkLater` | front-end/qemu-1.0/async.c:81-85 | storing through the pointer to the link takes exactly one entry out of the list |
| `BottomHalfCode.BottomHalves.BhNew` | front-end/qemu-1.0/async.c:44-53 | puts a new entry in front |
| `BottomHalfCode.BottomHalves.BhSchedule` | front-end/qemu-1.0/async.c:94-110 | schedules an entry that is not scheduled yet |
| `BottomHalfCode.BottomHalves.BhCancel` | front-end/qemu-1.0/async.c:112-115 | cancels |
| `BottomHalfCode.BottomHalves.BhDelete` | front-end/qemu-1.0/async.c:117-121 | marks as deleted, without freeing |
| `BottomHalfCode.BottomHalves.VisitEntry` | front-end/qemu-1.0/async.c:65-73 | takes the visit step: saves the entry that follows in the list and says whether the callback is due |
| `BottomHalfCode.BottomHalves.Sweep` | front-end/qemu-1.0/async.c:78-89 | the walk leaves exactly the entries not deleted, in order and linked |
| `BottomHalfCode.BottomHalves.BhPoll` | front-end/qemu-1.0/async.c:55-92 | ends, whatever its callbacks do and however they nest; returns true exactly when it itself called an entry that was last scheduled by qemu_bh_schedule; calls every entry due at its beginning unless the call is called off; inside another poll it only adds entries in front; the outermost leaves no deleted entry |

## Left out

- Bandwidth, expected time, progress percentages and rate-limit clocks of both migrations: the decision to go on is up to the environment.
- KVM dirty-log synchronisation, madvise, the order in which stage 1 sorts the blocks, and stopping a migration (stage below 0).
- RamLoad.RamLoader.RamLoad: streams of version 3 are not modelled, because looking up a page by its address reorders the list of blocks while it is being loaded; a buffer cut short by the end of the input is filled with zeros where the source leaves it as it was, which only matters for loads that fail.
- RamSave.RamSaver.RamSaveLive: guest writes do not happen inside a call; between calls they may do anything.
- Disk migration with a shared base image, failed reads and cancelling.
- BlockStreamCode.BlockLoader.BlockLoad: a buffer cut short by the end of the input is filled with zeros where the source leaves it unset; the load fails either way. Writes fail only when they do not lie on the disk.
- BufferedFile.QemuFileBuffered.BufferedClose: when the backend stops answering the source waits for ever; the model stops and says so. The calls that wake the client, the timer and the allocation failure are not modelled.
- RequestMergeCode.MultiwriteMerge: the buffers and vectors allocated for a join, and freeing them, are not modelled.
- Commit.Image.BdrvCommit: flushing, and the difference between a backing file and its image after it was reopened.
- Byte-sized allocation of the dirty and in-flight bitmaps: a bitmap is enough whole words.
- The numbers in the AES tables and the unrolled rounds: tables are given by their formulas from any S-box that is a bijection with its inverse.
- BottomHalfCode.BottomHalves.BhPoll: use of an entry after it has been freed is ignored, where the source would touch freed memory; the timeout computation is not modelled.
- hweight_long, set_bit and the other one-line bit helpers, and the bitmap operations that no searched or migrated bitmap uses (and, or, andnot, weight).
- Everything else in the repository, including the symbolic-execution parts outside `front-end/qemu-1.0`.
