# Verified model of the vm-playback-driver block layer, migration and message transport

A Dafny model of the parts of the repository that carry data: QEMU's live block
migration and the block layer under it, its AES code, its asynchronous contexts and
buffered migration stream, two small lookups and calculations, and the repository's own
message transport. `dafny verify dfyconfig.toml` checks all of it.

**Live block migration** (`Migration*.dfy`, `DirtyBitmap.dfy`, `Disk.dfy`). The protocol is
a state machine: the source's save handler in its three stages, reads in flight that the
block driver fills sector by sector, completion callbacks, guest writes at any moment, a
rate limit that may stop every flush, and the receiver. `MigrationProtocol` has the steps,
`MigrationConvergence` the invariant and its preservation, `MigrationTheorems` what follows
over whole runs, `MigrationLoss` what the last stage loses as told before it is called,
`MigrationRetry` the loops under reads that may fail, `MigrationWire` the bytes and the
receiver's parser, `MigrationEndToEnd` the two together, `MigrationProgress` the percentages
reported. `MigrationDriver` is the C code as a class with loops, each method proved to be its
protocol step, and `MigrationWhole` carries the theorems over to it. `DirtyBitmap` has the
bitmap in 32-bit words as the set of chunks the protocol uses.

**Block layer** (`ByteAccess.dfy`, `Commit.dfy`, `Multiwrite.dfy`,
`MultiwriteCompletion.dfy`). Byte-granular access, commit of an overlay, and merged writes,
each against a plain disk. `Common.dfy` has error numbers, options and arithmetic.

**AES** (`AesField.dfy`, `AesCipher.dfy`, `AesCode.dfy`, `AesKeys.dfy`, `AesCbc.dfy`,
`AesExample.dfy`). The table-driven rounds, both key schedules filled in place, and chaining
with a short last block. A 32-bit word is four bytes, most significant first. The lookup
tables are given by the formulas that define them, over any substitution with an inverse and
any linear doubling map; examples printed in FIPS 197 follow for the standard's own.

**Asynchronous contexts** (`AsyncContext.dfy`, `AsyncHistory.dfy`) as a machine with explicit
frames, so that callbacks may call back into every operation; **the buffered stream**
(`BufferedFile.dfy`) under a backend with arbitrary answers; **messages** (`Messages.dfy`,
`MessageExchange.dfy`) from typed values through the socket back to values; **opcode memo**
(`CrisMemo.dfy`, `CrisOpcodes.dfy`); **calendar** (`Calendar.dfy`).

## What the proofs found

- `blk_mig_cleanup` empties the device list before it switches dirty tracking off, so it
  switches it off for no device (`Cleanup`); tracking once switched on stays on (`SaveLive`).
- `is_stage2_completed` does not look at blocks that are read but not sent. The last stage
  drops them with the queue when the rate limit kept both flushes from emptying it;
  `QueuedBlockLost` is such a run. `StageTwoSuffices` is exact for the queue being emptied,
  and `LossTold` for the receiver's disk being right, both before the call.
- The receiver refuses a chunk that does not fit the device, so the last, partial chunk of a
  device is never transferred; if it is dirty when the last stage starts and will not be
  read again, that stage fails (`PartialChunkFails`; `FinalStageFailsIff` is exact).
- The bulk loops repeat a chunk whose read fails until it succeeds, so they need not end
  (`OneSectorHangs`; `LoopEndsIff` is exact).
- The percentage told during the walk stays below 100 on a disk that does not share its base
  image, because the last chunk counts by its first sector; only the last stage tells 100
  (`ProgressTold`, `HundredLast`).
- The dirty bitmap is allocated in bytes and used in words: the last word is only inside the
  allocation when the number of bytes is a multiple of four (`OneSectorOutside`;
  `LastWordAllocatedIff` is exact).
- Merging overlapping writes adds their sector counts although the overlap is cut out
  (`SameSectorInconsistent`; `MergeConsistentIff` is exact). The comparator wraps at a
  distance of 2^31 sectors (`ComparatorWraps`; `CompareRightIff` is exact).
- With two failing requests, or a refused one and no failure, a multiwrite caller is not
  called exactly once (`TwoFailures`, `RefusedNeverTold`; `ExactlyOnceIff` is exact).
- After a short last block, chained decryption carries on with the decrypted block instead
  of the cipher block (`VectorsDiffer`; `VectorsAgreeIff` is exact).
- A put whose initial flush fails reports success and sends its bytes ahead of older ones
  (`FailedFlushReorders`; `PutReportsIff` and `PutOvertakesIff` are exact).
- `buffered_close` returns the backend's result even when bytes were lost (`CloseLoses`;
  `CloseFailsIff` is exact).
- Idle bottom halves can make a pop lose others (`IdlePopDrops`; `PopDropsIff` is exact).
- The reader's size check wraps around (`HugeTextOverruns`; `CheckWrongIff` and
  `TextOverruns` are exact).
- The opcode memo is not kept per family (`StaleEntry`; `RightIff` is exact).

## Model

| member | source | states |
|---|---|---|
| `MigrationProtocol.FirstAllocatedSpec` | qemu/qemu-kvm-0.12.3+noroms/block-migration.c:149-155 | the shared-base walk skips exactly the unallocated sectors in front of the next allocated one |
| `MigrationProtocol.BulkAtSpec` | qemu/qemu-kvm-0.12.3+noroms/block-migration.c:149-171 | the bulk walk resumes at a chunk boundary at or behind the sector it skipped to, and only passes over unallocated sectors of a shared-base device |
| `MigrationProtocol.MarkedIffMet` | qemu/qemu-kvm-0.12.3+noroms/block.c:642-662 | the chunks marked for a request are exactly those in which some sector of it lies; an empty request marks the chunk it lies inside, and none if it starts one other than the first |
| `MigrationProtocol.BulkStepProgress` | qemu/qemu-kvm-0.12.3+noroms/block-migration.c:263-294 | every bulk step that reports more to do shrinks the sectors left plus the devices not done; one that reports none changes no device and all are complete, so with reads that succeed the stage-3 bulk loop ends |
| `MigrationProtocol.FlushFrame` | qemu/qemu-kvm-0.12.3+noroms/block-migration.c:331-361 | a flush changes the queue, the counts of read and of sent blocks, the stream and the error flag, and nothing else in the whole state |
| `MigrationProtocol.DirtyDeviceFrame` | qemu/qemu-kvm-0.12.3+noroms/block-migration.c:298-329 | the dirty pass over one device changes that device's dirty set, the stream and the error flag, and nothing else in the whole state |
| `MigrationConvergence.GuestWriteKeeps` | qemu/qemu-kvm-0.12.3+noroms/block.c:670-686 | a guest write at any moment, anywhere, keeps the invariant, because it marks its chunks dirty |
| `MigrationConvergence.DriverReadKeeps` | qemu/qemu-kvm-0.12.3+noroms/block-migration.c:183-188 | an asynchronous read may fill its buffer sector by sector while the guest writes, and the invariant holds throughout |
| `MigrationConvergence.ReadCallbackKeeps` | qemu/qemu-kvm-0.12.3+noroms/block-migration.c:127-138 | a completed read moves its block to the send queue and keeps the invariant and the counts |
| `MigrationConvergence.FlushKeeps` | qemu/qemu-kvm-0.12.3+noroms/block-migration.c:331-361 | sending any number of queued blocks, failed reads included, keeps the invariant |
| `MigrationConvergence.BulkBlockKeeps` | qemu/qemu-kvm-0.12.3+noroms/block-migration.c:140-294 | one bulk step, asynchronous or synchronous, keeps the invariant |
| `MigrationConvergence.SyncBulkKeeps` | qemu/qemu-kvm-0.12.3+noroms/block-migration.c:448-451 | the synchronous bulk loop of the last stage keeps the invariant |
| `MigrationConvergence.PumpKeeps` | qemu/qemu-kvm-0.12.3+noroms/block-migration.c:424-446 | what every call of the save handler does before the last stage keeps the invariant |
| `MigrationConvergence.DirtyPassEffect` | qemu/qemu-kvm-0.12.3+noroms/block-migration.c:298-329 | the final dirty pass sends exactly the dirty chunks with their current contents, or fails on a dirty chunk that does not fit its device |
| `MigrationConvergence.StepKeeps` | qemu/qemu-kvm-0.12.3+noroms/block-migration.c:127-469 | every step of the protocol, the guest and the block driver keeps the invariant |
| `MigrationConvergence.RunKeeps` | qemu/qemu-kvm-0.12.3+noroms/block-migration.c:127-469 | in every reachable state: reads in flight, queued and sent add up to the reads issued; the walk stands on a chunk boundary or the end; a clean chunk behind the walk and not pending is already equal on both sides |
| `MigrationConvergence.StageThree` | qemu/qemu-kvm-0.12.3+noroms/block-migration.c:448-461 | from any state the invariant allows, the last stage fails if and only if on some device the partial last chunk is dirty and the walk will not read it again: it is behind the walk, or the device is shared and no tail sector allocated; otherwise each receiver sector is the source's unless it was lost or lies in a partial chunk |
| `MigrationTheorems.CleanMigration` | qemu/qemu-kvm-0.12.3+noroms/block-migration.c:401-523 | when all reads are back and sent before the last stage and devices are whole chunks, every receiver disk equals its source disk |
| `MigrationTheorems.StageTwoSuffices` | qemu/qemu-kvm-0.12.3+noroms/block-migration.c:363-378 | a completed second stage leaves the queue empty for the last stage if and only if the two flushes together may send at least as many blocks as it holds |
| `MigrationTheorems.FlushCount` | qemu/qemu-kvm-0.12.3+noroms/block-migration.c:331-361 | a flush without failed reads drops exactly as many blocks from the front of the queue as the rate limit allows |
| `MigrationTheorems.QueuedBlockLost` | qemu/qemu-kvm-0.12.3+noroms/block-migration.c:363-378 | a concrete run in which the second stage counts as completed, no error is reported, and the receiver's disk differs from the source |
| `MigrationTheorems.FinalStageFailsIff` | qemu/qemu-kvm-0.12.3+noroms/block-migration.c:401-461 | the whole stage-3 call fails if and only if a failed read lies among the blocks its two flushes may send, or a dirty partial chunk will not be read again: both told from the state before the call |
| `MigrationTheorems.PartialChunkFails` | qemu/qemu-kvm-0.12.3+noroms/block-migration.c:298-329 | a reachable run on a device of one sector, with nothing queued, in which the last stage fails whatever the rate limit and the block driver do |
| `MigrationLoss.LoopWalks` | qemu/qemu-kvm-0.12.3+noroms/block-migration.c:424-436 | the rate-controlled loop starts exactly the reads there is room for, told from the rate and the reads outstanding, in the order of the walk: it marks those chunks clean and puts them in flight, and nothing else changes |
| `MigrationLoss.SyncPast` | qemu/qemu-kvm-0.12.3+noroms/block-migration.c:448-451 | the synchronous phase leaves every chunk behind the walk as it is, its dirty mark and the receiver's copy |
| `MigrationLoss.LossTold` | qemu/qemu-kvm-0.12.3+noroms/block-migration.c:401-523 | over every run, a receiver disk after the last stage equals the source disk if and only if the partial last chunk agreed beforehand and every sector of a full chunk whose block the call will drop is one the blocks still sent leave right on the receiver; which blocks are dropped is told from the state before the call, the two quotas and the rate |
| `MigrationLoss.StageTwoDrops` | qemu/qemu-kvm-0.12.3+noroms/block-migration.c:363-378 | after a completed second stage the blocks dropped are exactly the queued ones of clean chunks beyond the two quotas |
| `MigrationRetry.LoopEndsIff` | qemu/qemu-kvm-0.12.3+noroms/block-migration.c:424-451 | each of the two bulk loops, with any answers to its reads, ends if and only if among the reads it would issue as many succeed as there are chunks to read, or as the rate leaves room for: a chunk whose read is refused or fails is tried again |
| `MigrationRetry.LoopErrorIff` | qemu/qemu-kvm-0.12.3+noroms/block-migration.c:183-209 | after any number of turns of either loop the error flag is set if and only if one of the reads issued failed |
| `MigrationRetry.FailingNeverEnds` | qemu/qemu-kvm-0.12.3+noroms/block-migration.c:424-451 | with reads that all fail neither loop ends, unless it has none to make |
| `MigrationRetry.LoopEnds` | qemu/qemu-kvm-0.12.3+noroms/block-migration.c:424-451 | with reads that all succeed both loops end |
| `MigrationRetry.LoopIsPhase` | qemu/qemu-kvm-0.12.3+noroms/block-migration.c:424-451 | a loop that has ended and recorded no error has computed the protocol's phase, whatever answers other reads would have got |
| `MigrationRetry.TryDirtyFailsIff` | qemu/qemu-kvm-0.12.3+noroms/block-migration.c:298-329 | with any answers to its reads, the dirty pass over a device fails if and only if some dirty chunk cannot be read, because it does not fit or its read fails |
| `MigrationRetry.TryDirtyPassAll` | qemu/qemu-kvm-0.12.3+noroms/block-migration.c:298-329 | with reads that all succeed, or with a pass that records no error, it is the protocol's dirty pass |
| `MigrationDriver.BlockMigration.Init` | qemu/qemu-kvm-0.12.3+noroms/block-migration.c:221-261 | initialisation yields the start state of the protocol for the machine's non-empty hard disks |
| `MigrationDriver.InitLists` | qemu/qemu-kvm-0.12.3+noroms/block-migration.c:221-261 | a device of the machine is on the migration list if and only if it is a non-empty hard disk |
| `MigrationDriver.InitInOrder` | qemu/qemu-kvm-0.12.3+noroms/block-migration.c:221-261 | the list is in the order of the machine, and each entry has the contents, the allocation and the dirty chunks of its device |
| `MigrationDriver.BlockMigration.SetDirtyTracking` | qemu/qemu-kvm-0.12.3+noroms/block-migration.c:212-219 | exactly the devices on the list get the setting, the others keep theirs |
| `MigrationDriver.BlockMigration.ReadCb` | qemu/qemu-kvm-0.12.3+noroms/block-migration.c:127-138 | the completion callback is the protocol's read step |
| `MigrationDriver.BlockMigration.SaveDevice` | qemu/qemu-kvm-0.12.3+noroms/block-migration.c:140-210 | saving one chunk of a device, both branches, with a read that is refused or fails, is the protocol's try |
| `MigrationDriver.BlockMigration.SaveBulked` | qemu/qemu-kvm-0.12.3+noroms/block-migration.c:263-294 | the walk over the device list, the step with a read that may be refused or fail, and the progress report are the protocol's try |
| `MigrationDriver.BlockMigration.SaveLoop` | qemu/qemu-kvm-0.12.3+noroms/block-migration.c:424-451 | either loop around it computes the turns up to the one it ends on |
| `MigrationDriver.BlockMigration.FlushBlks` | qemu/qemu-kvm-0.12.3+noroms/block-migration.c:331-361 | the flush loop with its rate limit and error exits is the protocol's flush |
| `MigrationDriver.BlockMigration.SaveDirtyBlocks` | qemu/qemu-kvm-0.12.3+noroms/block-migration.c:298-329 | the two nested loops over devices and sectors, with any answers to the reads and any error from before, are the dirty pass: it stops at the first read that fails and only there |
| `MigrationDriver.BlockMigration.IsStage2Completed` | qemu/qemu-kvm-0.12.3+noroms/block-migration.c:363-378 | the test looks at submitted reads and bulk completion, and at nothing else |
| `MigrationDriver.BlockMigration.Cleanup` | qemu/qemu-kvm-0.12.3+noroms/block-migration.c:380-399 | cleanup empties the device list and the queue; dirty tracking of every device is after it what it was before |
| `MigrationDriver.BlockMigration.SaveLive` | qemu/qemu-kvm-0.12.3+noroms/block-migration.c:401-469 | the save handler with reads that may be refused or fail: cancel, disabled, first stage, later stages, each with its return value and whole new state; tracking goes on in the first stage for exactly the listed devices and no call ever switches it off |
| `MigrationDriver.StartIsInitial` | qemu/qemu-kvm-0.12.3+noroms/block-migration.c:221-261 | what initialisation builds satisfies the hypotheses of the convergence theorems, for any devices |
| `MigrationWire.BeRoundTrip` | qemu/qemu-kvm-0.12.3+noroms/block-migration.c:79-93 | a big-endian word reads back as the number written |
| `MigrationWire.BeBytes` | qemu/qemu-kvm-0.12.3+noroms/block-migration.c:79-93 | byte i of a word is its digit to the base 256 counted from the most significant |
| `MigrationWire.Receiver.BlockLoad` | qemu/qemu-kvm-0.12.3+noroms/block-migration.c:471-523 | the load loop is the section parser, with the disks it writes and the log of what it reads and prints: unknown device, unknown flags and writes refused by the disk included; a short read leaves stale bytes in the buffer, which are written before the stream error is reported |
| `MigrationWire.Receiver.LoadTurn` | qemu/qemu-kvm-0.12.3+noroms/block-migration.c:480-520 | one turn of the loop: a chunk for a device, a percentage printed as a C int with a newline only for 100, the end of the section, or the error |
| `MigrationWire.RecordRoundTrip` | qemu/qemu-kvm-0.12.3+noroms/block-migration.c:79-93 | every record the source can write, followed by anything, is read as that record, percentage included, has its effect on the disks and leaves what followed |
| `MigrationWire.SectionRoundTrip` | qemu/qemu-kvm-0.12.3+noroms/block-migration.c:471-523 | one section of any stream loads without error and leaves the rest loadable, the records read being those written |
| `MigrationWire.StreamRoundTrip` | qemu/qemu-kvm-0.12.3+noroms/block-migration.c:471-523 | a whole stream of records loads to exactly the effect of the records in order, and what is read is that list of records |
| `MigrationWire.StreamDetermines` | qemu/qemu-kvm-0.12.3+noroms/block-migration.c:79-93 | two streams with the same bytes have the same records |
| `MigrationWire.WordBytes` | qemu/qemu-kvm-0.12.3+noroms/block-migration.c:79-93 | the flags are the last byte of a word, and the sector or percentage starts at its tenth bit from below |
| `MigrationWire.RecordBytes` | qemu/qemu-kvm-0.12.3+noroms/block-migration.c:79-93 | the bytes of each record: a progress word ends with twice the percentage and 4, an end of section with 2; a block has its word, the length of the name, the name and the chunk |
| `MigrationEndToEnd.PercentBounded` | qemu/qemu-kvm-0.12.3+noroms/block-migration.c:284-291 | a progress report is never above 100 per cent |
| `MigrationEndToEnd.RunOk` | qemu/qemu-kvm-0.12.3+noroms/block-migration.c:401-469 | every record of every run fits the wire format, and after every step without an error the last section is closed |
| `MigrationEndToEnd.MigrationEndToEnd` | qemu/qemu-kvm-0.12.3+noroms/block-migration.c:401-523 | the bytes of a whole migration, loaded by the receiver's parser, are read record by record and give disks equal to the source's |
| `MigrationProgress.Looked` | qemu/qemu-kvm-0.12.3+noroms/block-migration.c:149-171 | whether a read is made, works or fails, or none is left, the completed sectors of a device are where its walk has come to |
| `MigrationProgress.BulkedTells` | qemu/qemu-kvm-0.12.3+noroms/block-migration.c:263-294 | after every bulk step, with a read that works or fails, the last percentage told is that of the sectors walked on all devices, rounded down |
| `MigrationProgress.ProgressTold` | qemu/qemu-kvm-0.12.3+noroms/block-migration.c:263-469 | in every state of every run the last percentage on the stream is that of the sectors walked, none is told twice in a row, and none is 100 unless every disk shares its base image |
| `MigrationProgress.HundredLast` | qemu/qemu-kvm-0.12.3+noroms/block-migration.c:448-464 | a last stage without an error ends its stream with 100 and the end of the section, and with a disk of its own that is the only 100 on it |
| `MigrationWhole.StartStream` | qemu/qemu-kvm-0.12.3+noroms/block-migration.c:221-261 | what initialisation builds satisfies the hypothesis of the stream theorems, for any devices |
| `MigrationWhole.StageWorks` | qemu/qemu-kvm-0.12.3+noroms/block-migration.c:401-469 | a call of the save handler that reports no error, whatever reads could have failed, and a call none of whose reads fails, is the protocol's |
| `MigrationWhole.StageIsStep` | qemu/qemu-kvm-0.12.3+noroms/block-migration.c:401-446 | a call before the last stage is the protocol's save step, or reports an error and has emptied its lists |
| `MigrationWhole.StageIsFinal` | qemu/qemu-kvm-0.12.3+noroms/block-migration.c:448-461 | a call with stage 3 that reports no error is the protocol's last stage |
| `MigrationWhole.StageAnswers` | qemu/qemu-kvm-0.12.3+noroms/block-migration.c:363-469 | over every run, a call before the last answers 1 if and only if it is of the second stage, reports no error, and after it no read is in flight and every walk is at the end of its device |
| `MigrationWhole.SectionClosedIff` | qemu/qemu-kvm-0.12.3+noroms/block-migration.c:401-469 | with any answers to its reads, a call that reports an error adds no end of section, and one that reports none adds exactly one, as its last record |
| `MigrationWhole.DriverEndToEnd` | qemu/qemu-kvm-0.12.3+noroms/block-migration.c:221-523 | from the machine's devices: whatever happens between initialisation and a stage-3 call that finds nothing pending and reports no error, the bytes the save handler has written load without error and give every receiver disk the source's contents |
| `MigrationWhole.DriverStream` | qemu/qemu-kvm-0.12.3+noroms/block-migration.c:401-523 | for disks of any size, the bytes of every run whose stage-3 call reports no error load to their end; what is read is the list of records, and the disks are what they give in order |
| `MigrationWhole.DriverPrints` | qemu/qemu-kvm-0.12.3+noroms/block-migration.c:455-512 | the receiver of such a stream prints 100 per cent with a newline at its end, and with a disk of its own not before |
| `MigrationWhole.DriverLoss` | qemu/qemu-kvm-0.12.3+noroms/block-migration.c:221-523 | from the machine's devices, over every run whose stage-3 call reports no error: the disk the receiver has after parsing the bytes written equals the source's if and only if the condition told before that call holds |
| `MigrationWhole.OneSectorHangs` | qemu/qemu-kvm-0.12.3+noroms/block-migration.c:448-451 | one sector to migrate and failing reads: the loop of the last stage does not end |
| `DirtyBitmap.Bitmap.SetDirtyBitmap` | qemu/qemu-kvm-0.12.3+noroms/block.c:642-662 | setting or clearing a range changes exactly the marks of the chunks in which some sector of the range lies, bit by bit in 32-bit words |
| `DirtyBitmap.Bitmap.GetDirty` | qemu/qemu-kvm-0.12.3+noroms/block.c:2137-2148 | the query is membership of the sector's chunk, and false outside the device |
| `DirtyBitmap.UpdateMarks` | qemu/qemu-kvm-0.12.3+noroms/block.c:642-662 | one bit operation changes one mark and no other |
| `DirtyBitmap.LastUpdateDecides` | qemu/qemu-kvm-0.12.3+noroms/block.c:642-662 | after any sequence of updates a chunk is dirty if and only if the last update with a sector in it set it |
| `DirtyBitmap.UnmetStays` | qemu/qemu-kvm-0.12.3+noroms/block.c:642-662 | a chunk no update has a sector in keeps its mark |
| `DirtyBitmap.RunUpdates` | qemu/qemu-kvm-0.12.3+noroms/block.c:642-662 | any sequence of range updates gives the set obtained by replaying them |
| `DirtyBitmap.LastWordAllocatedIff` | qemu/qemu-kvm-0.12.3+noroms/block.c:2117-2135 | the bytes allocated cover the last word used if and only if their number is a multiple of four |
| `DirtyBitmap.OneSectorOutside` | qemu/qemu-kvm-0.12.3+noroms/block.c:2117-2135 | on a device of one sector the word used lies outside the one byte allocated |
| `ByteAccess.Device.Read` | qemu/qemu-kvm-0.12.3+noroms/block.c:629-640 | a sector read, with its errors and the driver's, and the driver called exactly when the request is allowed |
| `ByteAccess.Device.Write` | qemu/qemu-kvm-0.12.3+noroms/block.c:670-686 | a sector write, with its errors and the driver's, the image unchanged when refused, and the driver called exactly when the request is allowed |
| `ByteAccess.Device.Pread` | qemu/qemu-kvm-0.12.3+noroms/block.c:688-731 | reading at any byte offset fills the buffer with that range of the flat disk; it succeeds if and only if the range lies inside and each of its one to three driver calls does; the error is that of a missing medium, of a range outside, or of the first driver call that failed |
| `ByteAccess.Device.Pwrite` | qemu/qemu-kvm-0.12.3+noroms/block.c:733-780 | writing at any byte offset splices the data into the flat disk; it succeeds if and only if the device is writable, the range lies inside and each driver call does; after a failure a first part of the data is written and nothing else changed, and the error is that of its cause |
| `ByteAccess.ReadBackWritten` | qemu/qemu-kvm-0.12.3+noroms/block.c:688-780 | what was written is read back, and ranges beside it are untouched |
| `ByteAccess.WriteThenRead` | qemu/qemu-kvm-0.12.3+noroms/block.c:688-780 | a write followed by a read of the same range returns the data, exactly when both are allowed and their driver calls succeed |
| `Commit.CommitKeepsView` | qemu/qemu-kvm-0.12.3+noroms/block.c:558-598 | copying a first part of the overlay down changes nothing a guest can see |
| `Commit.EmptyKeepsView` | qemu/qemu-kvm-0.12.3+noroms/block.c:594-597 | emptying the overlay afterwards, wholly or in part, changes nothing either |
| `Commit.CowImage.CommitRun` | qemu/qemu-kvm-0.12.3+noroms/block.c:577-592 | one run of allocated sectors is copied until the first that cannot be |
| `Commit.CowImage.CommitSectors` | qemu/qemu-kvm-0.12.3+noroms/block.c:577-592 | the loop over the runs copies every overlay sector up to the first that cannot be, or all of them |
| `Commit.CowImage.Commit` | qemu/qemu-kvm-0.12.3+noroms/block.c:558-598 | commit keeps the guest's view whatever fails, with each error code; copying succeeds if and only if every overlay sector fits the backing file and its transfers work, and then the result is that of emptying the overlay; otherwise exactly the sectors in front of the first bad one have been copied |
| `IoVectors.IoVector.Add` | qemu/qemu-kvm-0.12.3+noroms/cutils.c:156-168 | an appended buffer extends the vector's bytes |
| `IoVectors.IoVector.Concat` | qemu/qemu-kvm-0.12.3+noroms/cutils.c:176-193 | concatenation appends exactly the first bytes asked for, cutting inside a buffer |
| `Multiwrite.ComparatorSorts` | qemu/qemu-kvm-0.12.3+noroms/block.c:1634-1637 | where all differences fit 32 bits, being ordered by the comparator and being ordered by sector are the same |
| `Multiwrite.CompareRightIff` | qemu/qemu-kvm-0.12.3+noroms/block.c:1634-1637 | the comparator tells the order of two requests if and only if the low 32 bits of the difference have the sign of the difference |
| `Multiwrite.ComparatorWraps` | qemu/qemu-kvm-0.12.3+noroms/block.c:1634-1637 | a difference of 2^31 sectors puts the later request first |
| `Multiwrite.MergeTwo` | qemu/qemu-kvm-0.12.3+noroms/block.c:1672-1698 | one merge: data up to the second request's start, then the second request's data |
| `Multiwrite.Merge` | qemu/qemu-kvm-0.12.3+noroms/block.c:1643-1708 | the merge loop, on any order qsort leaves the requests in, produces a merging of them in that order |
| `Multiwrite.MergeTotals` | qemu/qemu-kvm-0.12.3+noroms/block.c:1692-1696 | merging keeps the sum of the sector counts and never adds bytes |
| `Multiwrite.MergedApart` | qemu/qemu-kvm-0.12.3+noroms/block.c:1643-1708 | nothing is left to merge: each merged request ends before the sector in front of the next |
| `Multiwrite.MergeConsistentIff` | qemu/qemu-kvm-0.12.3+noroms/block.c:1672-1698 | every merged request's sector count matches its data if and only if the requests were disjoint |
| `Multiwrite.SameSectorInconsistent` | qemu/qemu-kvm-0.12.3+noroms/block.c:1672-1698 | two writes of one sector: the merged request announces two sectors and holds one |
| `Multiwrite.MergePreservesMeaning` | qemu/qemu-kvm-0.12.3+noroms/block.c:1643-1708 | for disjoint requests whose differences fit, in any order, sorted by the comparator, writing the merged requests leaves the same disk as writing the originals |
| `MultiwriteCompletion.ControlBlock.Complete` | qemu/qemu-kvm-0.12.3+noroms/block.c:1616-1632 | one completion: error recorded and callbacks made at once, or on the last success, and the block freed once |
| `MultiwriteCompletion.ControlBlock.Submit` | qemu/qemu-kvm-0.12.3+noroms/block.c:1724-1773 | submission: all, some or none of the requests accepted, with the return value, the counter and every request's error field in each case |
| `MultiwriteCompletion.PartWay` | qemu/qemu-kvm-0.12.3+noroms/block.c:1616-1632 | before the last completion a caller has been called once per failure so far and the block is not freed |
| `MultiwriteCompletion.AllDone` | qemu/qemu-kvm-0.12.3+noroms/block.c:1616-1632 | at the end it is freed exactly once, and a caller was called once per failure, or once if there was none |
| `MultiwriteCompletion.ExactlyOnceIff` | qemu/qemu-kvm-0.12.3+noroms/block.c:1605-1632 | every caller is called exactly once if and only if one request failed, or none failed and none was refused |
| `MultiwriteCompletion.TwoFailures` | qemu/qemu-kvm-0.12.3+noroms/block.c:1605-1632 | two requests that both fail: the caller is called twice |
| `MultiwriteCompletion.RefusedNeverTold` | qemu/qemu-kvm-0.12.3+noroms/block.c:1605-1632 | one request done and the next refused: the caller is never called |
| `MultiwriteCompletion.CodesHonest` | qemu/qemu-kvm-0.12.3+noroms/block.c:1605-1614 | a caller is told success only if none was refused, all have completed and none failed; any other call is made during the completion of a request that failed, with its code |
| `MultiwriteCompletion.FailureTold` | qemu/qemu-kvm-0.12.3+noroms/block.c:1616-1632 | every failure is told to every caller, with its own code, while it is being completed |
| `AesField.XtimeLinear` | qemu/qemu-kvm-0.12.3+noroms/aes.c:46-58 | doubling in the field is linear |
| `AesCipher.InvMixMix` | qemu/qemu-kvm-0.12.3+noroms/aes.c:46-58 | the inverse column mix undoes the column mix, for any linear doubling |
| `RoundTower.RunPairs` | qemu/qemu-kvm-0.12.3+noroms/aes.c:980-1036 | the loop that does two rounds per turn and leaves in the middle computes the plain iteration |
| `RoundTower.RunUndone` | qemu/qemu-kvm-0.12.3+noroms/aes.c:885-1261 | with reversed keys an inverting round function undoes any number of rounds |
| `AesCode.EncTablesAreCipher` | qemu/qemu-kvm-0.12.3+noroms/aes.c:980-1069 | the table lookups are SubBytes, ShiftRows, MixColumns and AddRoundKey, and the last round without mixing |
| `AesCode.DecTablesAreCipher` | qemu/qemu-kvm-0.12.3+noroms/aes.c:1171-1260 | the decryption tables are the equivalent inverse cipher of section 5.3.5 of FIPS 197 |
| `AesCode.BlockBytes` | qemu/qemu-kvm-0.12.3+noroms/aes.c:43-44 | bytes to words and back, both ways |
| `AesCode.Encrypt` | qemu/qemu-kvm-0.12.3+noroms/aes.c:885-1070 | encrypting a block is the cipher of section 5.1 of FIPS 197 under the schedule in the array |
| `AesCode.Decrypt` | qemu/qemu-kvm-0.12.3+noroms/aes.c:1076-1261 | decrypting a block is the equivalent inverse cipher under the schedule in the array |
| `AesExample.RoundExample` | qemu/qemu-kvm-0.12.3+noroms/aes.c:885-1070 | the table round on the state and round key of Appendix B of FIPS 197 gives the next state printed there, byte for byte |
| `AesCipher.DecryptInvertsEncrypt` | qemu/qemu-kvm-0.12.3+noroms/aes.c:885-1261 | for any round keys and any number of rounds, decryption with the reversed, unmixed keys undoes encryption |
| `AesKeys.RconTable` | qemu/qemu-kvm-0.12.3+noroms/aes.c:722-726 | the literal round constants are the powers of x in the field |
| `AesKeys.Key.SetEncryptKey` | qemu/qemu-kvm-0.12.3+noroms/aes.c:731-827 | other key sizes are refused untouched; otherwise rounds are 10, 12 or 14 and the array holds the key expansion of section 5.2 of FIPS 197 |
| `AesKeys.Key.Expand128` | qemu/qemu-kvm-0.12.3+noroms/aes.c:756-773 | the in-place loop for four-word keys |
| `AesKeys.Key.Expand192` | qemu/qemu-kvm-0.12.3+noroms/aes.c:776-795 | the in-place loop for six-word keys, left in mid-turn |
| `AesKeys.Key.Expand256` | qemu/qemu-kvm-0.12.3+noroms/aes.c:798-825 | the in-place loop for eight-word keys with its extra substitution |
| `AesExample.KeyExample128` | qemu/qemu-kvm-0.12.3+noroms/aes.c:756-773 | the key expansion of the 128-bit key of Appendix A of FIPS 197 goes on with the word printed there |
| `AesExample.KeyExample256` | qemu/qemu-kvm-0.12.3+noroms/aes.c:798-825 | that of the 256-bit key with the words printed there, the one with the extra substitution among them |
| `AesKeys.CodeUnmixIs` | qemu/qemu-kvm-0.12.3+noroms/aes.c:853-876 | looking a substituted byte up in the decryption tables is the inverse column mix |
| `AesKeys.Key.ReverseKeys` | qemu/qemu-kvm-0.12.3+noroms/aes.c:846-852 | swapping word groups from both ends reverses the round keys |
| `AesKeys.Key.SetDecryptKey` | qemu/qemu-kvm-0.12.3+noroms/aes.c:832-878 | the decryption schedule is the encryption schedule reversed, with all but the first and last round keys unmixed |
| `AesKeys.BlockRoundTrip` | qemu/qemu-kvm-0.12.3+noroms/aes.c:731-1261 | for every 128, 192 or 256-bit key and every block, decryption undoes encryption |
| `AesCbc.CbcEncrypt` | qemu/qemu-kvm-0.12.3+noroms/aes.c:1276-1294 | chained encryption with the block code, in place or not, any length: ciphertext, untouched rest of the buffer, and final vector |
| `AesCbc.CbcDecrypt` | qemu/qemu-kvm-0.12.3+noroms/aes.c:1295-1313 | chained decryption with the block code, in place or not, any length: exactly the bytes asked for, and final vector |
| `AesCbc.EncryptEquation` | qemu/qemu-kvm-0.12.3+noroms/aes.c:1276-1294 | the chaining equation: every cipher block is the encryption of the plain block added to the cipher block in front, a short one filled up with zeros |
| `AesCbc.DecryptEquation` | qemu/qemu-kvm-0.12.3+noroms/aes.c:1295-1313 | every plain block is the decryption of the cipher block added to the cipher block in front, of a short one the first bytes |
| `AesCbc.VectorIsLast` | qemu/qemu-kvm-0.12.3+noroms/aes.c:1276-1294 | encryption leaves the last cipher block as the vector |
| `AesCbc.CbcRoundTrip` | qemu/qemu-kvm-0.12.3+noroms/aes.c:1265-1314 | decrypting gives every message back, of any length, short last block included |
| `AesCbc.EncryptInParts` | qemu/qemu-kvm-0.12.3+noroms/aes.c:1277-1294 | calls that carry the vector on encrypt as one call, if all but the last are whole blocks |
| `AesCbc.DecryptInParts` | qemu/qemu-kvm-0.12.3+noroms/aes.c:1295-1308 | calls that carry the vector on decrypt as one call, if all but the last are whole blocks |
| `AesCbc.VectorsAgreeIff` | qemu/qemu-kvm-0.12.3+noroms/aes.c:1265-1314 | the two sides end with the same vector if and only if the message is whole blocks, or its last cipher block is a fixed point of decryption |
| `AesCbc.VectorsDiffer` | qemu/qemu-kvm-0.12.3+noroms/aes.c:1265-1314 | a block map under which the two vectors differ after every message that is not whole blocks |
| `AesMessages.MessageRoundTrip` | qemu/qemu-kvm-0.12.3+noroms/aes.c:731-1314 | the key schedules, the block code and the chaining together: every message comes back under every key and vector |
| `AesMessages.StandardTables` | qemu/qemu-kvm-0.12.3+noroms/aes.c:46-58 | the field's doubling with any invertible substitution meets the hypotheses of the AES theorems |
| `AesMessages.CbcCrypt` | qemu/qemu-kvm-0.12.3+noroms/aes.c:1265-1314 | the whole function under a key object: the chained cipher or inverse cipher of the schedule in its array, on every length, in place or not, with the final vector |
| `AesMessages.EncryptAndBack` | qemu/qemu-kvm-0.12.3+noroms/aes.c:731-1314 | a buffer encrypted in place and decrypted in place with schedules set up by the code is what it was; other key sizes are refused untouched |
| `AsyncContexts.RunKeeps` | qemu/qemu-kvm-0.12.3+noroms/async.c:65-195 | in every run: context numbers are depths, lists hold their own bottom halves, waiting walks have strictly growing depths, and a walk that has called nothing has passed nothing that is due |
| `AsyncContexts.Isolation` | qemu/qemu-kvm-0.12.3+noroms/async.c:28-46 | every callback starts while its own context is the active one, whatever earlier callbacks did, and the active number is the depth |
| `AsyncContexts.CurrentStays` | qemu/qemu-kvm-0.12.3+noroms/async.c:138-166 | while a callback runs, its bottom half stays in the list its walk goes on with |
| `AsyncContexts.PopDropsOnlyAfterIdle` | qemu/qemu-kvm-0.12.3+noroms/async.c:82-105 | leaving a context drops a bottom half that is due only if the last walk ran an idle one |
| `AsyncContexts.PopDropsIff` | qemu/qemu-kvm-0.12.3+noroms/async.c:82-105 | in every run, leaving a context drops a bottom half that is due if and only if one was scheduled behind the walk's back, after the walk had passed it, and was not cancelled or deleted since |
| `AsyncContexts.PopNeverDrops` | qemu/qemu-kvm-0.12.3+noroms/async.c:82-105 | if nothing is ever scheduled idle, leaving a context never drops a bottom half that is due |
| `AsyncContexts.IdlePopDrops` | qemu/qemu-kvm-0.12.3+noroms/async.c:82-105 | a concrete run in which an idle bottom half schedules another one and the pop drops it |
| `AsyncContexts.NotCalledUnlessScheduled` | qemu/qemu-kvm-0.12.3+noroms/async.c:138-195 | a bottom half that is not scheduled is not called until it is scheduled again, whatever else happens: at most one call per scheduling |
| `AsyncContexts.NotAgain` | qemu/qemu-kvm-0.12.3+noroms/async.c:138-195 | after a cancel, a deletion or a call a bottom half is not called again in any continuation that does not schedule it; that it can run again is DueIsCalled |
| `AsyncContexts.CompletionsNext` | qemu/qemu-kvm-0.12.3+noroms/async.c:101-105 | after leaving a context, in any run, the parent's next walk calls first the bottom half that delivers the pending completions |
| `AsyncHistory.FlagsFromHistory` | qemu/qemu-kvm-0.12.3+noroms/async.c:138-195 | in every run a bottom half is deleted if and only if a call deleted it; scheduled if and only if, of the schedulings, cancels, deletions and calls of it, the last was a scheduling; and idle, while scheduled, if and only if the scheduling that made it due was an idle one |
| `AsyncHistory.DueIsCalled` | qemu/qemu-kvm-0.12.3+noroms/async.c:138-151 | over every run: one that is due when a poll or a pop starts in its context is called by that walk before the walk is over, unless it is cancelled or deleted first |
| `AsyncHistory.ListsTold` | qemu/qemu-kvm-0.12.3+noroms/async.c:126-136 | in every run the list of a context holds every undeleted bottom half made in it, newest first |
| `AsyncHistory.WalkEndFrees` | qemu/qemu-kvm-0.12.3+noroms/async.c:153-163 | at the end of a walk its list holds exactly the undeleted bottom halves made in the context |
| `AsyncHistory.ComesBack` | qemu/qemu-kvm-0.12.3+noroms/async.c:82-105 | over every run, whatever callbacks do: when its walk is over a poll is back in the context it started in, a pop in the parent of that context, and a pop of the last context has aborted |
| `AsyncHistory.PollReports` | qemu/qemu-kvm-0.12.3+noroms/async.c:138-166 | what a poll returns says whether its walk ran a bottom half that was not idle |
| `BufferedStream.BufferedFile.Append` | qemu/qemu-kvm-0.12.3+noroms/buffered_file.c:49-71 | appending keeps the contents and grows the buffer, by the bytes and 1024, exactly when they do not fit |
| `BufferedStream.BufferedFile.FlushBuffer` | qemu/qemu-kvm-0.12.3+noroms/buffered_file.c:73-108 | the flush loop and the move to the front are the flush on values |
| `BufferedStream.BufferedFile.PutBytes` | qemu/qemu-kvm-0.12.3+noroms/buffered_file.c:110-160 | a put, with its error returns, is the put on values |
| `BufferedStream.BufferedFile.RateTick` | qemu/qemu-kvm-0.12.3+noroms/buffered_file.c:221-239 | a tick resets the count and flushes, unless frozen or failed; what that means over a run is CountIsDirect and TickReleases |
| `BufferedStream.BufferedFile.SetRateLimit` | qemu/qemu-kvm-0.12.3+noroms/buffered_file.c:201-212 | the limit is a tenth of the rate, and stays after an error |
| `BufferedStream.BufferedFile.RateLimit` | qemu/qemu-kvm-0.12.3+noroms/buffered_file.c:185-199 | the writer is held back exactly when frozen or over the limit, never after an error |
| `BufferedStream.BufferedFile.Close` | qemu/qemu-kvm-0.12.3+noroms/buffered_file.c:162-183 | the closing loop, for every backend whose answers let it end, leaves the stream drained or failed, and returns the backend's own result |
| `BufferedStream.FlushCarries` | qemu/qemu-kvm-0.12.3+noroms/buffered_file.c:73-108 | a flush moves bytes in order, and leaves an empty buffer unless it froze or failed |
| `BufferedStream.PutCarries` | qemu/qemu-kvm-0.12.3+noroms/buffered_file.c:110-160 | a put without error keeps all bytes in order and accepts all of its own |
| `BufferedStream.RunConserves` | qemu/qemu-kvm-0.12.3+noroms/buffered_file.c:73-239 | for every run and every backend, while there is no error the bytes delivered followed by the bytes buffered are all bytes accepted, in order |
| `BufferedStream.ErrorStops` | qemu/qemu-kvm-0.12.3+noroms/buffered_file.c:73-239 | after an error nothing more reaches the backend |
| `BufferedStream.CloseDelivers` | qemu/qemu-kvm-0.12.3+noroms/buffered_file.c:162-183 | closing without an error means the backend has taken every byte ever handed in, in order |
| `BufferedStream.ReadySettles` | qemu/qemu-kvm-0.12.3+noroms/buffered_file.c:162-183 | for a backend that says not ready only up to some call, closing ends |
| `BufferedStream.CloseFailsIff` | qemu/qemu-kvm-0.12.3+noroms/buffered_file.c:162-183 | closing ends with an error, and with bytes left undelivered, if and only if the backend's answers to the buffered bytes come to a failure; its result does not tell |
| `BufferedStream.CloseLoses` | qemu/qemu-kvm-0.12.3+noroms/buffered_file.c:162-183 | a byte lost on closing |
| `BufferedStream.PutRespectsLimit` | qemu/qemu-kvm-0.12.3+noroms/buffered_file.c:126-150 | a put counts exactly the bytes it hands straight over, hands none over above the limit, and overshoots it by at most its own bytes |
| `BufferedStream.CountIsDirect` | qemu/qemu-kvm-0.12.3+noroms/buffered_file.c:126-239 | over every run of a fresh stream the count is the bytes puts have handed straight over since the last tick that was neither frozen nor failed |
| `BufferedStream.WithinLimit` | qemu/qemu-kvm-0.12.3+noroms/buffered_file.c:126-239 | between two such ticks no more bytes are handed over than the highest limit in force and one put |
| `BufferedStream.LastRate` | qemu/qemu-kvm-0.12.3+noroms/buffered_file.c:201-212 | the limit is a tenth, rounded down, of the last rate set before any error |
| `BufferedStream.PutEndsAs` | qemu/qemu-kvm-0.12.3+noroms/buffered_file.c:110-160 | whether a put freezes the stream or fails is told by the backend's answers: first those to the buffered bytes, then, unless the backend was not ready, those to its own |
| `BufferedStream.TickReleases` | qemu/qemu-kvm-0.12.3+noroms/buffered_file.c:221-239 | after a tick that was neither frozen nor failed before it the writer is held back if and only if the backend was not ready for the buffered bytes |
| `BufferedStream.HeldBackIff` | qemu/qemu-kvm-0.12.3+noroms/buffered_file.c:185-239 | over every run the writer is held back if and only if there is no error and the backend was not ready the last time, or more bytes than the limit were handed over since the last tick that went through |
| `BufferedStream.PutReportsIff` | qemu/qemu-kvm-0.12.3+noroms/buffered_file.c:110-160 | whether a put's result tells its error state, from the backend's answers before the call: unless the flush of the buffer fails and handing the new bytes over does not |
| `BufferedStream.PutOvertakesIff` | qemu/qemu-kvm-0.12.3+noroms/buffered_file.c:110-160 | a put sends its bytes ahead of older ones if and only if the flush of the buffer fails, there are bytes to put, the limit is not reached and the backend's next answer is positive |
| `BufferedStream.FailedFlushReorders` | qemu/qemu-kvm-0.12.3+noroms/buffered_file.c:124-150 | a concrete put whose flush fails: it reports success and hands its bytes over ahead of older ones |
| `MessageCodec.Builder.Reserve` | comm/bknd/MessageBuilder.cpp:31-47 | room for what is asked even when doubling wraps around, with the capacity the doubling gives, contents kept |
| `MessageCodec.Builder.WriteInt` | comm/bknd/MessageBuilder.cpp:49-94 | an integer of each width and sign is appended little-endian |
| `MessageCodec.Builder.WriteText` | comm/bknd/MessageBuilder.cpp:108-114 | a string is appended behind its length |
| `MessageCodec.Builder.WriteBytes` | comm/bknd/MessageBuilder.cpp:116-120 | raw bytes are appended |
| `MessageCodec.Builder.ToMessage` | comm/bknd/MessageBuilder.cpp:22-29 | the message takes the contents along and the builder starts empty with its first capacity |
| `MessageCodec.CheckWrongIff` | comm/bknd/MessageReader.cpp:36-39 | the size check lets a read through that the message cannot serve if and only if position plus count does not fit 32 bits; it never refuses one it can serve |
| `MessageCodec.TextOverruns` | comm/bknd/MessageReader.cpp:97-103 | a string read goes past the end of the message if and only if the length in front of it reaches beyond 32 bits, and throws if and only if it only reaches beyond the message |
| `MessageCodec.HugeTextOverruns` | comm/bknd/MessageReader.cpp:97-103 | a message of four bytes 0xff, read as a string, is read past its end |
| `MessageCodec.Reader.Seek` | comm/bknd/MessageReader.cpp:26-30 | seeking beyond the end throws and stays |
| `MessageCodec.Reader.GetInt` | comm/bknd/MessageReader.cpp:41-95 | integer reads: value, exception, or a read past the end behind a wrapped check |
| `MessageCodec.Reader.GetText` | comm/bknd/MessageReader.cpp:97-103 | a string read is a length read and a bytes read, each with its outcomes |
| `MessageCodec.Reader.GetBytes` | comm/bknd/MessageReader.cpp:105-109 | raw reads, with their outcomes |
| `MessageCodec.SignRoundTrip` | comm/bknd/MessageReader.cpp:41-95 | signed and unsigned values survive their bit pattern at every width |
| `MessageCodec.LeRoundTrip` | comm/bknd/MessageBuilder.cpp:61-94 | a little-endian integer reads back as the number written |
| `MessageCodec.LeBytes` | comm/bknd/MessageBuilder.cpp:61-94 | byte i of an integer is its digit to the base 256 counted from the least significant |
| `MessageCodec.LePutBack` | comm/bknd/MessageReader.cpp:41-95 | any bytes are those of the number read from them |
| `MessageCodec.PatternOf` | comm/bknd/MessageBuilder.cpp:49-94 | two's complement: the pattern stored is the value modulo the number of patterns |
| `MessageCodec.EncodedBytes` | comm/bknd/MessageBuilder.cpp:49-120 | the bytes of every value: an integer least significant first, a text as its length in four bytes and its characters, raw bytes as they are |
| `MessageCodec.ReadEncoded` | comm/bknd/MessageReader.cpp:41-109 | a value standing anywhere in a message is read back by the matching read |
| `MessageCodec.ReadIsEncoded` | comm/bknd/MessageReader.cpp:41-109 | conversely, whatever a read gives is a value of its kind whose bytes stand where it was read, and the position moves behind them |
| `MessageCodec.ReadDecided` | comm/bknd/MessageReader.cpp:36-109 | a read is served exactly when its bytes are there, throws and stays exactly when they are not and the sum fits 32 bits, and overruns with a wrapped position otherwise |
| `MessageCodec.ValuesReadBack` | comm/bknd/MessageReader.cpp:36-109 | every list of values below the size limit comes back through the matching reads, in order |
| `MessageStream.ParseFrame` | comm/bknd/MessageConnection.cpp:30-47 | a framed message followed by anything parses to that message and what followed |
| `MessageStream.FrameBytes` | comm/bknd/MessageConnection.cpp:25-47 | the bytes of a frame: the header in bytes 0 to 3 and the length in bytes 4 to 7, each least significant first, then the content |
| `MessageStream.ParsedIsFramed` | comm/bknd/MessageConnection.cpp:30-38 | conversely, whatever is taken off a stream is a message whose frame stands at its front |
| `MessageStream.FramedParse` | comm/bknd/MessageConnection.cpp:30-47 | consecutive messages come back in order with their headers |
| `MessageStream.EndToEnd` | comm/bknd/MessageConnection.cpp:30-47 | values built into messages, framed, taken off the stream and read with the matching reads are the values that went in |
| `MessageStream.Connection.ReceiveDirect` | comm/ftnd/Connection.cpp:128-142 | under any chunking the loop delivers exactly the next bytes; with a working socket it succeeds if and only if at least one byte is asked for and they are all there; otherwise the connection is closed |
| `MessageStream.Connection.Receive` | comm/ftnd/Connection.cpp:109-118 | the same, and an exception on a closed connection, with nothing taken |
| `MessageStream.Connection.ReadMessage` | comm/bknd/MessageConnection.cpp:30-38 | under any chunking a message read is the parse of the stream; failure closes the connection, and a closed one gives nothing and takes nothing |
| `MessageStream.Connection.Send` | comm/ftnd/Connection.cpp:98-126 | all bytes are sent if and only if the connection is open and one send takes them all; otherwise it is closed with a first part of them sent |
| `MessageStream.Connection.WriteMessage` | comm/bknd/MessageConnection.cpp:40-47 | the whole frame is sent, or the connection is closed with a first part of it sent |
| `MessageExchange.Build` | comm/bknd/MessageBuilder.cpp:22-120 | a builder of any first capacity, one write per value, gives the message that stands for the values |
| `MessageExchange.WriteAll` | comm/bknd/MessageConnection.cpp:40-47 | any number of message writes put exactly the frames on the stream, in order |
| `MessageExchange.ReadAll` | comm/bknd/MessageConnection.cpp:30-38 | any number of message reads under any chunking give the parse of the stream; with a working socket they succeed if and only if the stream holds that many messages |
| `MessageExchange.Values` | comm/bknd/MessageReader.cpp:26-109 | a reader, one read per kind, gives the values the content stands for, and fails if and only if a read fails |
| `MessageExchange.Exchange` | comm/bknd/MessageConnection.cpp:30-47 | values written with builders, sent, received in whatever pieces and read with readers are the values written, or the exchange fails; with sockets that take and deliver it does not fail |
| `BestMatch.BestIsBest` | qemu/qemu-kvm-0.12.3+noroms/cris-dis.c:1491-1580 | the scan finds the first entry of the highest score, all full matches counting alike, and none only if every entry is refused |
| `BestMatch.BestUnique` | qemu/qemu-kvm-0.12.3+noroms/cris-dis.c:1491-1580 | that entry is unique |
| `BestMatch.Search` | qemu/qemu-kvm-0.12.3+noroms/cris-dis.c:1491-1580 | the loop with its running best and early exit computes it |
| `CrisMemo.NumberOfBits` | qemu/qemu-kvm-0.12.3+noroms/cris-dis.c:1364-1375 | clearing the lowest bit until none is left counts the one bits |
| `CrisMemo.SpecRegInfo` | qemu/qemu-kvm-0.12.3+noroms/cris-dis.c:1332-1359 | the register scan returns the size of the first register listed for the family |
| `CrisMemo.SpecRegSizes` | qemu/qemu-kvm-0.12.3+noroms/cris-dis.c:57-119 | every special register has one, two or four bytes |
| `CrisMemo.Constraint` | qemu/qemu-kvm-0.12.3+noroms/cris-dis.c:1601-1752 | the loop over constraint letters refuses exactly the operand strings that do not fit, and otherwise gives their confidence |
| `CrisMemo.FitsIff` | qemu/qemu-kvm-0.12.3+noroms/cris-dis.c:1601-1752 | an operand string fits if and only if the size field, the registers, the special register, the push size and the prefix are what its letters ask for, and a prefix has a letter that takes it; the value is the confidence of the letters |
| `CrisMemo.ConfidenceCounts` | qemu/qemu-kvm-0.12.3+noroms/cris-dis.c:1713-1745 | the confidence: three for each special register, counted from the last pair of equal registers on, which gives five |
| `CrisMemo.FieldsOf` | qemu/qemu-kvm-0.12.3+noroms/cris-dis.c:1628-1725 | the fields are the bits of the word they are said to be |
| `CrisMemo.FamiliesByVersion` | qemu/qemu-kvm-0.12.3+noroms/cris-dis.c:1332-1542 | which entries and registers a family takes, from the first and last processor version they are for |
| `CrisMemo.PushByClass` | qemu/qemu-kvm-0.12.3+noroms/cris-dis.c:1672-1711 | a push prefix fits or not by its class alone |
| `CrisMemo.ConstraintByClass` | qemu/qemu-kvm-0.12.3+noroms/cris-dis.c:1601-1752 | the confidence of a match depends on a prefix only through its class: none, DIP, offset -1, -2, -4, any other |
| `CrisMemo.Lookup.GetOpcodeEntry` | qemu/qemu-kvm-0.12.3+noroms/cris-dis.c:1379-1595 | one lookup of any family through the shared tables is the lookup on values |
| `CrisMemo.ScanIsBest` | qemu/qemu-kvm-0.12.3+noroms/cris-dis.c:1491-1580 | the scan of the opcode table for an instruction and a prefix gives the best entry |
| `CrisMemo.ScanChooses` | qemu/qemu-kvm-0.12.3+noroms/cris-dis.c:1491-1580 | the scan gives an entry if and only if it is the first accepted one of the highest level: two for each bit it fixes and the confidence of its operands, full matches counting alike |
| `CrisMemo.HistoryOk` | qemu/qemu-kvm-0.12.3+noroms/cris-dis.c:1379-1595 | after any history of lookups of any families a filled slot holds the scan of the family that filled it |
| `CrisMemo.FirstFills` | qemu/qemu-kvm-0.12.3+noroms/cris-dis.c:1379-1595 | the first family to fill a slot owns it for ever |
| `CrisMemo.RightIff` | qemu/qemu-kvm-0.12.3+noroms/cris-dis.c:1379-1595 | after any history a lookup, with a prefix or without, gives what the owners of its two slots find; it is right if and only if its own family finds the same by its own reading of prefix and instruction |
| `CrisMemo.OneFamily` | qemu/qemu-kvm-0.12.3+noroms/cris-dis.c:1379-1595 | as long as one family looks up, every result is the entry the scan should give: the first accepted one of the highest level |
| `CrisMemo.StaleWhere` | qemu/qemu-kvm-0.12.3+noroms/cris-dis.c:1379-1595 | whenever v32 finds an entry only v32 takes, a v32 lookup followed by one for v0 to v10 gives the second an entry it refuses |
| `CrisOpcodes.StaleEntry` | qemu/qemu-kvm-0.12.3+noroms/cris-dis.c:1379-1595 | on the table of the source: a v32 lookup of halt and then a v0_v10 lookup of the same word gives the second the v32 entry, which its own scan does not find |
| `CrisOpcodes.AddDecoded` | qemu/qemu-kvm-0.12.3+noroms/cris-dis.c:1379-1752 | on the table of the source, for all registers and every family: the words of add are decoded as add for the sizes byte, word and double word; with the fourth size as a move to the special register if the family knows it, and not at all otherwise |
| `Calendar.NextDayFollows` | qemu/qemu-kvm-0.12.3+noroms/cutils.c:99-111 | for every date from year 1 on the next calendar day has the next day number, across month ends, leap years and centuries |
| `Calendar.NextDaySeconds` | qemu/qemu-kvm-0.12.3+noroms/cutils.c:99-111 | in seconds, exactly 86400 later |
| `Calendar.Epoch` | qemu/qemu-kvm-0.12.3+noroms/cutils.c:99-111 | 1970-01-01 00:00:00 is 0 |
| `Calendar.DaysCounted` | qemu/qemu-kvm-0.12.3+noroms/cutils.c:99-111 | n calendar days after any date is n days later |
| `Calendar.MatchesPosix` | qemu/qemu-kvm-0.12.3+noroms/cutils.c:99-111 | from 1970 on it is the formula of section 4.15 of the POSIX.1-2008 Base Definitions |

## Left out

- Runs after an error: a call that reports one has emptied its lists and the migration is over, so runs go on only from calls without one.
- Asynchronous guest writes, which mark chunks when submitted; guest writes here are the synchronous ones.
- SaveLive: asks that its loops end, which they do exactly under LoopEndsIff, and for at least one non-empty hard disk in the first stage, because without one the source divides by a zero sector total, which is undefined.
- 64-bit bitmap words: the shift of a plain int is undefined there, so words have 32 bits.
- The driver hook that may merge non-adjacent writes, and the zero fill between requests it allows.
- The literal contents of the AES tables, which are their defining formulas here; the mnemonics, operand sizes and handlers of the CRIS opcode table.
- AES words as machine integers: a word is its four bytes, so shifts and masks select bytes by position.
- Null arguments of the AES key routines, and the unrolled variants that are switched off.
- ByteAccess.Device.Read: does not model growable devices, whose range check is off and whose length the driver changes.
- ByteAccess.Device.Write: does not model growable devices; a driver write that fails leaves the sectors as they were.
- ByteAccess.Device.Pread: does not model growable devices.
- ByteAccess.Device.Pwrite: does not model growable devices; a driver write that fails leaves its own sectors as they were.
- The linked nodes of a bottom-half list: a list is a sequence and a walk a position counted from its end, which new bottom halves in front do not move.
- Callbacks of bottom halves as code: they are arbitrary interleavings of the operations that balance pushes and pops and do not poll their own context.
- The AIO completion queue run by the bottom half a pop schedules, and qemu_bh_update_timeout.
- Close: asks that the backend's answers let the loop end; for one that says "not ready" for ever it does not.
- put_ready callbacks from the rate tick: what they write are further puts of the run.
- Allocation failure when the stream buffer grows.
- Float and double writes, which have no matching read, and the reference counting of message buffers.
- Messages at or above the 32-bit size limit while building: the builder's own sums would wrap.
- Winsock start-up, connecting and the UDP connections.
- Opcode versions on which the CRIS scan aborts; the scan here refuses them.
- Printing of disassembled operands.
- The width of time_t: mktimegm is over mathematical integers.
- The flush hooks of the drivers that bdrv_commit calls; they have no effect on the model.
- The rest of QEMU: devices, CPUs, image formats, networking.
