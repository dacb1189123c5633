# The path of a captured frame: probe, WAL segment, receiver file

This project models the sovereign probe's record path and its receiver, and proves what they promise each other.

* **Capture, queue, breaker, writer.** Frames come from the ring, are dropped while the probe is degraded, else cut
  to a record and sent to a bounded queue. The writer checks the queue's watermark, takes a record, drops or writes
  it, and rotates. A sampler and the writer share one `degraded` flag. (`Capturing.dfy`, `Slicer.dfy`, `Guard.dfy`,
  `Pipeline.dfy`, `CaptureRefinement.dfy`, `WriterRefinement.dfy`, `PipelineRecovery.dfy`,
  `FlagReads.dfy`)
* **WAL codec.** A 64-byte big-endian header with a back-filled CRC-32, and a streaming decoder that stops at the first
  bad record. The CRC is computed bit by bit over a 32-bit register as in section 8 of RFC 1952, so that error
  detection is a theorem. (`Crc32.dfy`, `WalHeader.dfy`, `WalRecordProofs.dfy`, `WalStream.dfy`, `WalCodec.dfy`,
  `WalDamage.dfy`, `EdgeBurst.dfy`)
* **Writer and rotator.** Record-aligned segments in a directory, the oldest unlinked first, restart by scanning the
  names. (`Names.dfy`, `Rotation.dfy`, `RotationRuns.dfy`, `WriterModel.dfy`, `WriterThread.dfy`,
  `WriterRuns.dfy`, `SegmentBoundaries.dfy`, `DirectoryLife.dfy`)
* **Receiver.** Each source segment is rebuilt from chunks that come out of order, twice, not at all, or as references
  into a bounded cache, under a global budget for what waits, with seals, gap queries, refills and restarts.
  (`Segments.dfy`, `Delivery.dfy`, `Tilings.dfy`, `ReceiverModel.dfy`, `Eviction.dfy`, `PendingBudget.dfy`,
  `DedupCache.dfy`,
  `Batches.dfy`, `Convergence.dfy`, `Healing.dfy`, `Refill.dfy`, `Reassembly.dfy`)
* **End to end.** `EndToEnd.dfy` joins them: any run of the probe, whatever its crashes left in the directory, then any
  run of the receiver.

Objects that the program updates in place are classes (`SegmentBuf`, `Reassembler`, `ByteVec`, `Rotator`, `WalWriter`,
`Breaker`, `Capture`); their methods are proved against functions or relations on values, and the properties are proved
about those. Threads are interleaved steps (`Pipeline`). `CaptureRefinement` and `WriterRefinement` show that in every
interleaving capture and the writer each run their own loop, on the flag values, records and stores that the run really
had, and `PipelineRecovery` carries the writer's recovery over to the whole system.

`dafny verify dfyconfig.toml` checks the whole project.

## What the code does not do

Where the code falls short of its documentation the model follows the code, and the exact condition is proved.

* **The load band wraps.** The sampler's recovery threshold for the load, 80% of the limit, is computed in a byte. It is
  80% exactly for limits up to 31; the limit 85 gives 16 (`Guard.CpuBandExact`; release arithmetic, a debug build stops
  there). With no reading at all the flag is cleared (`Guard.SamplerClears`).
* **Small watermarks never recover.** With a watermark of 0 or 1 percent the clearing threshold rounds down to zero and
  a degraded writer drops for ever; from 2 on recovery is bounded (`WriterRuns.RecoveryExact`).
* **Stray names stop the rotator.** Names that begin with `segment_` but are not the rotator's own count against the
  budget and are never unlinked. With more of them than the limit the unlink loop cannot end
  (`RotationRuns.NeverWithinBudget`; `RotationRuns.StrayExample` is a directory with two). With exactly as many, the
  first allocation unlinks its own new segment and the writer's open creates it again (`RotationRuns.OpenedFull`), so
  that the second allocation cannot end (`RotationRuns.SecondNeverEnds`; `RotationRuns.FullExample` has one stray name
  and a limit of one). A process that dies before that open leaves no number behind, and the next one starts from 0
  (`RotationRuns.FullForgets`). With fewer all is well (`Rotation.Rotator.NextSegment`).
* **`pending_bytes` over-counts.** A chunk that replaces a waiting one at the same offset is added without the old one
  being subtracted. The counters are exact but for these bytes and never pass the budget
  (`PendingBudget.TraceWithin`), but the bytes are not given back: with nothing else waiting, a chunk that comes too
  early stays if and only if it fits beside them (`PendingBudget.EarlyStays`). One early chunk of 64 KiB delivered 4097
  times uses the whole budget up (`PendingBudget.OneChunkExhausts`), and from then on no chunk waits at all, in any
  segment, until a buffer is dropped or the receiver restarts (`PendingBudget.StarvedForGood`).
* **Damage to `payload_len` can go unseen.** The decoder uses it to find the end of what the checksum covers. For every
  record there is another whose encoding decodes as it once that field alone is damaged
  (`WalDamage.LengthDamageUnseen`); a length that runs past the end is always noticed (`WalDamage.LengthOverrun`).
  Any other change is noticed if and only if it alters magic or version, or does to the checksum something else than it
  does to the checksum field, which depends on the change alone (`WalDamage.DamageExact`). So every change of at most
  four consecutive bytes on one side of, or inside, the field is noticed, and some across its edge are not
  (`EdgeBurst.EdgeBurstUnseen`).
* **Straddling chunks block.** A waiting chunk that the watermark has passed into is never released. A set of slices
  completes a segment in every order, with nothing left waiting, if and only if it tiles it (`Tilings.TilingExact`);
  every source of more than four bytes has overlapping slices that cover it and leave it short
  (`Delivery.OverlapStuck`); and with one chunking, a file from before that ends inside a chunk never grows again
  (`Healing.HealsExactly`).
* **No query from zero.** A gap query is sent only once the watermark is above 0; chunks that wait above offset 0
  trigger none (`Reassembly.Reassembler.OnSealFrame`).
* **Reserved bits are ignored.** The decoder accepts any reserved pad and any flag bits 1 to 7, so re-encoding
  reproduces the bytes exactly when these are clear (`WalRecordProofs.ReencodeExact`).
* **Zero capacity.** A watermark check on a queue of capacity 0 divides by zero; capacities are taken to be positive
  or unbounded.

## Model

| member | source | states |
|---|---|---|
| EndToEnd.CapturedToReceived | e2e-tools/src/bin/sub_save_test.rs:83-146 | For any run of the probe, any segment it filled and any run of a receiver fed with slices of that segment (any order, losses, repeats, references, evictions, reopenings): at every step the file decodes to the first records of the segment exactly as written, each made by the slicer from its own captured frame, in the order of capture, and the residual is only a torn record |
| EndToEnd.DirectoryToReceived | sov-probe/src/wal/writer.rs:65-144 | The same through the probe's directory: the process is one of any number that ran, died (also in the middle of an allocation) and started again on it, and the frames carry slices of whatever stood under a segment's name at any of these times |
| EndToEnd.ServedHonest | e2e-tools/src/bin/sub_save_test.rs:251-353 | A frame cut from files as they stood at any time, torn by a crash or not, is honest for what was accepted into the segments by the end |
| EndToEnd.FileDecodes | e2e-tools/src/bin/sub_save_test.rs:149-163 | Same for any list of records as the source: the file is a prefix, and decodes to exactly the records that end within it, normalised |
| EndToEnd.SealExact | e2e-tools/src/bin/sub_save_test.rs:149-155 | At a seal with the true size nothing is missing exactly when the file is the source |
| EndToEnd.SegmentWritten | sov-probe/src/wal/writer.rs:106-129 | In any reachable state of the pipeline a segment is a contiguous run of the written records, all of them held in full by the disk format |
| ReceiverModel.NextHonest | e2e-tools/src/bin/sub_save_test.rs:251-377 | No frame, cache hit, eviction, buffer removal or restart makes a file depart from its source or the cache from what the ids stand for |
| ReceiverModel.TraceHonest | e2e-tools/src/bin/sub_save_test.rs:251-442 | The same over every run, for all segments at once |
| ReceiverModel.TraceAppends | e2e-tools/src/bin/sub_save_test.rs:107-114 | Over every run, honest or not, files only grow at their end |
| ReceiverModel.ReachedIsComplete | e2e-tools/src/bin/sub_save_test.rs:522-540 | If at some state of an honest run the watermark reached the source's size, the file is the source from then on |
| ReceiverModel.PlaceElsewhere | e2e-tools/src/bin/sub_save_test.rs:310-319 | Placing a chunk leaves every other segment's file alone and can only take waiting chunks from it |
| Healing.GapHealed | e2e-tools/src/bin/sub_save_test.rs:482-551 | With one chunking the watermark, where a gap query starts, is a cut at every state of the run; once the chunks from there on have been delivered in increasing order the file is the source, whatever waited, arrived or was evicted meanwhile in any segment |
| Refill.RefillHeals | e2e-tools/src/bin/sub_save_test.rs:482-551 | A refill whose seconds bring the chunks from the query's offset on in increasing order leaves the file equal to the source, and reports completion |
| Refill.CompleteIsSource | e2e-tools/src/bin/sub_save_test.rs:522-540 | On an honest run a refill that reports completion leaves the file equal to its source |
| Refill.GoneEnds | e2e-tools/src/bin/sub_save_test.rs:490-544 | No refill waits longer than the rounds before the first that is told the segment is gone; one given up has waited exactly so long |
| Reassembly.SixteenSeconds | e2e-tools/src/bin/sub_save_test.rs:488-540 | With the rounds and seconds of the program that is at most sixteen seconds |
| Healing.HealsExactly | e2e-tools/src/bin/sub_save_test.rs:83-105 | A segment reopened on an old file and then sent all its chunks in order becomes complete if and only if that file ended at a cut |
| Healing.SubCanon | e2e-tools/src/bin/sub_save_test.rs:357-377 | Losing any set of waiting chunks leads to the state for a smaller set of deliveries with the same watermark |
| Delivery.PlacedFaithful | e2e-tools/src/bin/sub_save_test.rs:117-146 | Placing any slice of the source, overlapping or not, keeps the file a prefix and what waits true to the source |
| Delivery.PlacedCanon | e2e-tools/src/bin/sub_save_test.rs:117-146 | Placing chunk i turns the state for a set of chunks into the state for that set and i |
| Delivery.Confluence | e2e-tools/src/bin/sub_save_test.rs:117-146 | Without evictions file, watermark and waiting chunks of a segment depend only on the set of chunks delivered, not on order or repetition: the longest run from 0, and exactly the delivered chunks beyond it |
| Convergence.RunConfluent | e2e-tools/src/bin/sub_save_test.rs:251-377 | Over any receiver run in which no placement takes the counters past the pending budget, however much is placed in all, each segment is in the state for the chunks it had and those delivered to it, by data, batch or reference, whatever happens to other segments |
| Convergence.FreshConfluent | e2e-tools/src/bin/sub_save_test.rs:251-377 | The same from an empty receiver: the file is the longest run of delivered chunks and exactly the others wait |
| Convergence.EvictsExactly | e2e-tools/src/bin/sub_save_test.rs:355-377 | In a state within the budget a placement evicts something if and only if it takes the counters past it |
| Convergence.RoomKeepsAll | e2e-tools/src/bin/sub_save_test.rs:355-377 | A chunk for which there is room among what is counted evicts nothing |
| Convergence.EarlyWaits | e2e-tools/src/bin/sub_save_test.rs:125-131 | An early chunk with room waits, in place of one at the same offset, and nothing else changes in any segment |
| Convergence.LateIgnored | e2e-tools/src/bin/sub_save_test.rs:117-124 | An empty chunk and one below the watermark change no file and nothing that waits |
| Delivery.CompleteExact | e2e-tools/src/bin/sub_save_test.rs:133-145 | The file is the source, and nothing waits, exactly when every chunk has been delivered |
| Delivery.OverlapStuck | e2e-tools/src/bin/sub_save_test.rs:121-124 | For every source of more than four bytes, four overlapping slices that cover it and leave the file short |
| Tilings.TilingExact | e2e-tools/src/bin/sub_save_test.rs:117-146 | A set of slices completes the segment with nothing left waiting, in every order and with any repetition, if and only if one starts at 0, each ends where another starts or at the end, and none starts inside another |
| Tilings.NoTilingFails | e2e-tools/src/bin/sub_save_test.rs:117-146 | Otherwise there is an order that delivers each slice once and fails |
| Segments.SegmentBuf.Open | e2e-tools/src/bin/sub_save_test.rs:83-105 | An existing file counts as received without a gap; nothing waits |
| Segments.SegmentBuf.WriteBytes | e2e-tools/src/bin/sub_save_test.rs:107-114 | The bytes are appended and the watermark stays the file's length |
| Segments.SegmentBuf.Place | e2e-tools/src/bin/sub_save_test.rs:117-146 | The new file and waiting map are those of the value function behind Confluence; accepted exactly when not empty and not below the watermark; the counter is the real total plus the replaced bytes, grows by at most the chunk, and what is replaced was counted before |
| Segments.SegmentBuf.Backfill | e2e-tools/src/bin/sub_save_test.rs:133-144 | The loop moves waiting chunks for exactly as long as the first one starts at the watermark |
| Segments.SegmentBuf.PopFirst | e2e-tools/src/bin/sub_save_test.rs:367-372 | The first waiting chunk goes and its bytes are subtracted without underflow |
| Segments.SegmentBuf.OnSeal | e2e-tools/src/bin/sub_save_test.rs:149-163 | Missing bytes, decoded records and residual are those of the file, which is unchanged |
| Reassembly.Reassembler.constructor | e2e-tools/src/bin/sub_save_test.rs:200-219 | A start on a directory that may hold files: no buffers, empty cache |
| Reassembly.Reassembler.CacheInsert | e2e-tools/src/bin/sub_save_test.rs:222-241 | The eviction loop ends; order queue without duplicates and equal to the cached ids, byte counter exact, every cached value the latest one for its id; bytes of at most 64 MiB are cached under a new id, which comes last behind what is left of the old queue |
| ReceiverModel.StoredLongest | e2e-tools/src/bin/sub_save_test.rs:222-241 | After a store the order queue is the longest tail that fits the budget of the old queue, with the id at its end if it is new; the id has the new bytes, no other changes |
| DedupCache.NewComesLast | e2e-tools/src/bin/sub_save_test.rs:227-237 | A new id that fits comes last, after a tail of the old queue: the oldest entries are the ones evicted |
| DedupCache.KnownKeepsPlace | e2e-tools/src/bin/sub_save_test.rs:225-237 | A known id keeps its place in the queue, whatever its new bytes |
| DedupCache.OrderOfArrival | e2e-tools/src/bin/sub_save_test.rs:222-241 | Over every run the queue is the order of arrival: its ids stand in the order of the frames that introduced them, each cached ever since |
| DedupCache.DataIsCached | e2e-tools/src/bin/sub_save_test.rs:281-284 | After a data frame its id stands for its bytes, if they fit the budget at all and the id stood for no others |
| DedupCache.LateReference | e2e-tools/src/bin/sub_save_test.rs:251-303 | A reference places exactly the bytes of the data frame that introduced its id, as long as the bytes brought under other ids in between leave room for them |
| DedupCache.NextReference | e2e-tools/src/bin/sub_save_test.rs:251-303 | With no other id in between it does so whether or not the id was cached before the data frame |
| DedupCache.BothWritten | e2e-tools/src/bin/sub_save_test.rs:832-846 | From an empty receiver, a data frame and a reference to its id write the same bytes to both segments |
| Reassembly.Reassembler.PendingTotal | e2e-tools/src/bin/sub_save_test.rs:379-381 | The sum of all counters |
| Reassembly.Reassembler.FindVictim | e2e-tools/src/bin/sub_save_test.rs:359-364 | A segment whose first waiting chunk has the globally smallest offset, or none when nothing waits |
| Reassembly.Reassembler.EnforcePendingBudget | e2e-tools/src/bin/sub_save_test.rs:357-377 | The loop ends with the counters within the budget; it changes no file or watermark, takes only the globally smallest offsets, takes nothing when within budget, and the last chunk it took was still needed |
| Reassembly.Reassembler.PlaceRaw | e2e-tools/src/bin/sub_save_test.rs:310-319 | One segment changes as Place says, then exactly the budget's loop: nothing goes while the counters fit, no more than it takes otherwise; the counters stay within the budget |
| Reassembly.Reassembler.PendingBound | e2e-tools/src/bin/sub_save_test.rs:355-381 | In every valid state of the object, so after every frame, what really waits over all segments and what was replaced add up to the counters and fit the pending budget |
| PendingBudget.TraceWithin | e2e-tools/src/bin/sub_save_test.rs:355-381 | Over every run, whatever arrives, waiting and replaced bytes together never pass the pending budget |
| PendingBudget.EarlyStays | e2e-tools/src/bin/sub_save_test.rs:125-131 | With nothing else waiting, an early chunk stays if and only if it fits beside the replaced bytes |
| PendingBudget.Redelivery | e2e-tools/src/bin/sub_save_test.rs:127-128 | The run of one early chunk delivered m times: it waits for as many deliveries as its size fits beside what was replaced before, then is evicted at once, and that many times its size stays counted |
| PendingBudget.OneChunkExhausts | e2e-tools/src/bin/sub_save_test.rs:127-128 | 4097 deliveries of one 64 KiB chunk to an empty receiver use the 256 MiB budget up to the last byte with nothing waiting |
| PendingBudget.StarvedForGood | e2e-tools/src/bin/sub_save_test.rs:357-377 | From a state whose replaced bytes fill the budget nothing waits at any later state, short of a dropped buffer or a restart |
| Reassembly.Reassembler.OnChunkFrame | e2e-tools/src/bin/sub_save_test.rs:251-303 | Data, reference and bad frames take exactly the step of the receiver machine, budget-guarded eviction included, and keep the counters within the budget; the bytes of a data frame with an id, up to 64 MiB, are cached under it afterwards; a reference to an uncached id only counts a miss |
| Reassembly.Reassembler.OnBatchFrame | e2e-tools/src/bin/sub_save_test.rs:322-353 | Entries are placed one by one, each with its budget-guarded eviction, those that do not decrypt skipped; the cache is untouched and the counters stay within the budget |
| Batches.BatchIsFrames | e2e-tools/src/bin/sub_save_test.rs:322-353 | A batch passes through the states of its entries sent one after the other, in order, as data frames without an id |
| Batches.FramesAreBatch | e2e-tools/src/bin/sub_save_test.rs:322-353 | And such a run of frames is the batch |
| Reassembly.Reassembler.OnSealFrame | e2e-tools/src/bin/sub_save_test.rs:384-442 | A gap query from the watermark exactly when some but not all bytes are there; missing bytes, records and residual are those of the file; an unknown segment changes nothing |
| Reassembly.Reassembler.HasBlind | e2e-tools/src/bin/sub_save_test.rs:445-447 | Yes exactly for cached ids, and then the cache holds the bytes of the latest data frame with that id |
| Reassembly.Reassembler.Handle | e2e-tools/src/bin/sub_save_test.rs:599-670 | Whichever handler a frame goes to, the object moves by one step of the receiver machine and stays valid, pending bound included |
| Reassembly.Reassembler.AwaitRefill | e2e-tools/src/bin/sub_save_test.rs:522-540 | Stops after the first second at whose end the file had the size, and reports completion exactly then; otherwise all seconds have passed with the file short at the end of each |
| Reassembly.Reassembler.RefillSegment | e2e-tools/src/bin/sub_save_test.rs:482-551 | The same over at most four rounds of four seconds up to the first that is told the segment is gone; then the buffer is dropped; the whole is a run of the receiver machine |
| Names.SegNameForm | sov-probe/src/wal/rotate.rs:63-65 | A segment name is segment_, the digits of the number, .wal: exactly four digits up to 9999, beyond that as many as it has without a leading zero |
| Names.ParseNameExact | sov-probe/src/wal/rotate.rs:42-60 | A name is read as a number exactly if it is segment_, perhaps a plus, digits, .wal, and the number fits 64 bits |
| Names.RecvPathForm | e2e-tools/src/bin/sub_save_test.rs:75-81 | Device 1 has the plain segment name; any other has dev, its digits without leading zeros, an underscore, and that name |
| Names.NameExamples | sov-probe/src/wal/rotate.rs:199-202 | segment_0007.wal, segment_0003.wal and dev2_segment_0003.wal |
| Names.ParseSegName | sov-probe/src/wal/rotate.rs:42-65 | Parsing the zero-padded name gives back every 64-bit number |
| Names.RecvPathInjective | e2e-tools/src/bin/sub_save_test.rs:75-81 | Different (device, segment) pairs never share a path |
| Crc32.BurstDetected | sov-probe/src/wal/header.rs:185-192 | Any change within at most four consecutive bytes changes the CRC, whatever stands before and after |
| Crc32.FeedInjective | sov-probe/src/wal/header.rs:185-192 | The same bytes never bring two different registers together |
| Crc32.TailReaches | sov-probe/src/wal/header.rs:185-192 | Every CRC value is reached by some choice of the last four bytes, so longer bursts cannot all be detected |
| Crc32.TableStep | sov-probe/src/wal/header.rs:185-192 | The table-driven step of the RFC's sample code is the bitwise step |
| Crc32.CheckValue | sov-probe/src/wal/header.rs:185-192 | The check value of CRC-32 on the digits 1 to 9 |
| WalCodec.ByteVec.Encode | sov-probe/src/wal/header.rs:76-110 | Resizing, filling and back-filling in place appends exactly the record's encoding and leaves earlier bytes alone |
| WalRecordProofs.EncodedLayout | sov-probe/src/wal/header.rs:9-31 | Every field can be read back at its documented offset, and the checksum field is the checksum of the rest |
| WalRecordProofs.EncodedChecksum | sov-probe/src/wal/header.rs:76-110 | For every record the checksum field holds the CRC-32 of all other bytes |
| WalRecordProofs.RoundTrip | sov-probe/src/wal/header.rs:76-168 | A record decodes to itself with normalised flags and proto, whatever follows, if and only if its payload length fits 32 bits |
| WalRecordProofs.NormalisedExact | sov-probe/src/wal/header.rs:90-97 | Normalising changes nothing exactly for one-byte protos with only DEGRADED and a right TRUNCATED |
| WalRecordProofs.ParseStable | sov-probe/src/wal/header.rs:113-168 | A record that decodes decodes the same when more bytes follow |
| WalRecordProofs.TornRecord | sov-probe/src/wal/header.rs:126-134 | A record cut anywhere does not decode |
| WalRecordProofs.ReencodeExact | sov-probe/src/wal/header.rs:113-168 | Decoding then encoding gives back the bytes if and only if the reserved pad is clear and the flags byte is 0 or 1 |
| WalDamage.DamagedRecord | sov-probe/src/wal/header.rs:113-168 | A record with covered damage (up to four bytes, not in payload_len) does not decode, whatever follows |
| WalDamage.DamageExact | sov-probe/src/wal/header.rs:113-192 | For any change at all outside payload_len, what is left decodes if and only if magic and version are intact and the change, fed from a zero register, equals the change of the checksum field |
| WalDamage.LogDamageExact | sov-probe/src/wal/header.rs:172-180 | In a log, exactly the records before the changed one come back if and only if the change is not one of those |
| WalDamage.LengthOverrun | sov-probe/src/wal/header.rs:126-134 | In a log in which only the payload_len of record i was overwritten, with a value that runs past the end: exactly the records before i come back, the rest is residual |
| EdgeBurst.EdgeBurstUnseen | sov-probe/src/wal/header.rs:136-140 | For every record with an empty payload, four changed bytes across the edge of the checksum field with which it still decodes |
| Crc32.CrcChange | sov-probe/src/wal/header.rs:185-192 | The difference of two CRCs is a function of the difference of the messages alone |
| WalDamage.LengthDamageUnseen | sov-probe/src/wal/header.rs:126-140 | For every record another one decodes as it once its payload_len is damaged |
| WalStream.LogRoundTrip | sov-probe/src/wal/header.rs:172-180 | Decoding inverts concatenated encoding with residual 0, if and only if all payload lengths fit |
| WalStream.DecodePrefix | sov-probe/src/wal/header.rs:172-180 | For arbitrary bytes, decoding a prefix gives a prefix of the records |
| WalStream.CrashRecovery | sov-probe/src/wal/header.rs:113-180 | A log cut at byte k recovers exactly the records that end by k, with residual k minus their size |
| WalStream.WholeExact | sov-probe/src/wal/header.rs:172-180 | The count used there is exact: its records end by k and one more would not |
| WalDamage.DamageDetected | sov-probe/src/wal/header.rs:113-192 | Covered damage in record i of a log of any length: exactly the records before i come back, and everything from its first byte is residual |
| WalCodec.DecodeStream | sov-probe/src/wal/header.rs:172-180 | The loop returns the records and residual of the recursive decoder |
| Slicer.ProcessedRoundTrip | sov-probe/src/parse/slicer.rs:23-71 | A record is made exactly for IPv4 TCP and UDP, keeps a prefix of the payload up to the maximum, and decodes from disk to itself |
| Slicer.PacketOnDisk | sov-probe/src/parse/slicer.rs:23-95 | Every field of the packet stands on disk at the offset the header format documents for it |
| Slicer.MaskBits | sov-probe/src/parse/slicer.rs:98-119 | Each TCP flag is its own bit of the mask, and the two upper bits are clear |
| WriterThread.WalWriter.constructor | sov-probe/src/wal/writer.rs:46-63 | A writer on a scanned directory, stray names or not, no segment yet |
| WriterThread.WalWriter.OpenSegment | sov-probe/src/wal/writer.rs:65-76 | One more, empty, segment; the directory changes by that file and the unlinked oldest ones; with as many stray names as the limit only that file is left, created again below the unlinking point |
| WriterThread.WalWriter.HandleRecord | sov-probe/src/wal/writer.rs:106-129 | Dropped and counted when degraded; else encoded whole into one segment, a new one if this one would overflow; directory and buffer together still hold every record accepted |
| WriterThread.WalWriter.MaybeRotate | sov-probe/src/wal/writer.rs:131-137 | When due, the current segment is empty and flushed afterwards; one segment is added if and only if there was something to close |
| SegmentBoundaries.ReceivedBoundaries | sov-probe/src/wal/writer.rs:89-137 | One receive, exactly: closed segments stay; the record ends the current segment or, overflowing, begins the next; a due turn ends with an empty segment, added only if something was closed; one not due adds none but for an overflow |
| SegmentBoundaries.DueSeparates | sov-probe/src/wal/writer.rs:131-137 | Over any run two records with a due turn between them never share a segment |
| SegmentBoundaries.IdleTurn | sov-probe/src/wal/writer.rs:92-98 | A turn that receives nothing leaves the segments alone, due or not |
| SegmentBoundaries.EndTurnBoundaries | sov-probe/src/wal/writer.rs:131-137 | The same of the rotation step in every interleaving |
| WriterThread.WalWriter.Flush | sov-probe/src/wal/writer.rs:139-144 | Afterwards the current file is exactly the log of its records |
| WriterThread.WalWriter.ReceiveOne | sov-probe/src/wal/writer.rs:90-99 | One record leaves the queue and is written or counted as dropped |
| WriterThread.WalWriter.Run | sov-probe/src/wal/writer.rs:85-103 | The loop over any turns, with other threads sending and setting the flag, is the loop on values, and ends flushed |
| WriterThread.OnDiskDecodes | sov-probe/src/wal/writer.rs:106-144 | After a crash at any moment every segment decodes to its first records, and closed or flushed ones to all with residual 0: no record is split |
| DirectoryLife.StoodIsPrefix | sov-probe/src/wal/writer.rs:65-144 | Over any run of work, deaths and restarts on one directory, what stood under a segment's name at any moment is a prefix of the log of the records accepted into it by any later moment |
| DirectoryLife.RestartKeeps | sov-probe/src/wal/rotate.rs:26-60 | A death, in the middle of an allocation or not, and the scan of the next process take nothing back: every segment keeps its records, and no number is given twice |
| DirectoryLife.LastStays | sov-probe/src/wal/writer.rs:65-144 | What a process had accepted into its segments when it ended stays what they stand for to the end of the run |
| DirectoryLife.WriterWorks | sov-probe/src/wal/writer.rs:85-144 | What the writer's operations promise makes any stretch of its work such a step |
| DirectoryLife.WriterRestarts | sov-probe/src/wal/writer.rs:46-63 | And a new writer on the directory that a dead process left is a restart |
| WriterThread.WalWriter.RamDisk | sov-probe/src/wal/rotate.rs:5-16 | If every record fits a segment and the directory began within both limits, it never holds more than max_segments * segment_size bytes of WAL |
| WriterModel.AcceptFlatten | sov-probe/src/wal/writer.rs:106-129 | Wherever the boundary falls, the record comes last in arrival order and none moves |
| WriterModel.AllBytesIsLog | sov-probe/src/wal/writer.rs:106-129 | All segments in number order, evicted ones included, are the concatenated encodings |
| WriterModel.AcceptFits | sov-probe/src/wal/writer.rs:118-122 | Every segment stays within the size or holds one oversized record alone |
| WriterRuns.SegmentsRefineLog | sov-probe/src/wal/writer.rs:85-144 | Over any run the segmented writer refines one endless log, for every segment size and all rotations |
| WriterRuns.BoundedRecovery | sov-probe/src/guard/breaker.rs:33-46 | With a watermark of at least 2 a degraded writer left alone recovers within queue length + 1 checks and stays so; it drops all of the queue but the last f records and writes those, f being the clearing fill or the queue length |
| WriterRuns.NoRecovery | sov-probe/src/guard/breaker.rs:41-44 | With a watermark of 0 or 1 it never recovers and writes nothing, whatever is sent, unless the sampler clears the flag |
| WriterRuns.RecoveryExact | sov-probe/src/guard/breaker.rs:33-46 | Recovery if and only if the watermark is at least 2 |
| PipelineRecovery.SystemRecovers | sov-probe/src/guard/breaker.rs:33-46 | In every interleaving: from a degraded state at the top of the writer's loop, with a watermark of at least 2 and while nothing is sent and the sampler is silent, once the watermark has been judged more often than records were queued the system is healthy, the queue empty, and exactly its last records (the clearing fill or all) were written, the others counted as dropped |
| PipelineRecovery.SystemStuck | sov-probe/src/guard/breaker.rs:41-44 | With a watermark of 0 or 1 a degraded system stays so and writes nothing in any interleaving, whatever is sent, until the sampler clears the flag |
| PipelineRecovery.UnboundedFlag | sov-probe/src/guard/breaker.rs:33-36 | With an unbounded queue only the sampler changes the flag, in every interleaving |
| Rotation.ScanExisting | sov-probe/src/wal/rotate.rs:42-60 | Next is one past the largest number parsed, least the smallest, both 0 when none parses |
| Rotation.Rotator.constructor | sov-probe/src/wal/rotate.rs:26-39 | The rotator starts in a state that matches the directory |
| Rotation.Rotator.MinExistingNo | sov-probe/src/wal/rotate.rs:153-169 | The smallest number present, or the next one |
| Rotation.Rotator.EnforceBudget | sov-probe/src/wal/rotate.rs:92-106 | The loop ends even with gaps in the numbers; survivors are exactly the largest numbers, as many as fit, contents unchanged, other files untouched |
| Rotation.Rotator.NextSegment | sov-probe/src/wal/rotate.rs:73-88 | The created name did not exist; old set plus the new segment, cut to the largest; the new one survives if stray names leave room for one |
| RotationRuns.RestartResumes | sov-probe/src/wal/rotate.rs:26-60 | A restart takes up exactly the next free number of the directory, in whatever state it was left |
| RotationRuns.NumbersNeverReused | sov-probe/src/wal/rotate.rs:26-106 | Where stray names leave room for the new segment, over any run of allocations, writes, restarts and deaths between creating and unlinking, numbers strictly increase and a created name never exists |
| RotationRuns.NeverWithinBudget | sov-probe/src/wal/rotate.rs:92-106 | With more stray names than the limit no unlinking brings the count within it |
| RotationRuns.StrayExample | sov-probe/src/wal/rotate.rs:92-106 | Such a directory: two stray names and a limit of one |
| RotationRuns.OpenedFull | sov-probe/src/wal/writer.rs:65-76 | With exactly as many, the first allocation unlinks every segment, its own new one too, and the open creates that one again below the unlinking point |
| RotationRuns.SecondNeverEnds | sov-probe/src/wal/rotate.rs:73-106 | After that no unlinking from that point on brings the second allocation within the limit |
| RotationRuns.FullExample | sov-probe/src/wal/rotate.rs:73-106 | Such a directory: one stray name and a limit of one |
| RotationRuns.FullForgets | sov-probe/src/wal/rotate.rs:26-60 | A process that dies before that open leaves a directory from which the next one starts at 0, if no stray name holds a number |
| RotationRuns.FullOfStrays | sov-probe/src/wal/writer.rs:65-76 | With exactly as many as the limit, once a segment lies below the unlinking point no unlinking above it does either |
| RotationRuns.RamDiskBound | sov-probe/src/wal/rotate.rs:73-106 | An allocation as next_segment performs it keeps the number of segments within the limit, and the byte bound holds also between creating the new segment and unlinking the oldest |
| Guard.Breaker.HotPathCheck | sov-probe/src/guard/breaker.rs:33-47 | The flag after a check is the function behind NoFlapping and BandExact |
| Guard.Breaker.Sample | sov-probe/src/guard/breaker.rs:70-112 | A sampler round sets, clears or leaves the flag as the function behind SamplerSets and SamplerClears says |
| Guard.NoFlapping | sov-probe/src/guard/breaker.rs:33-46 | Between a set and a clear the fill has fallen by more than (w - w/2) percent of the capacity |
| Guard.BandHolds | sov-probe/src/guard/breaker.rs:33-46 | Any run of checks at fills between the thresholds leaves the flag as it was |
| Guard.BandExact | sov-probe/src/guard/breaker.rs:33-46 | A check keeps either value exactly for the fills in that band |
| Guard.SamplerSets | sov-probe/src/guard/breaker.rs:78-105 | A round sets the flag if and only if a reading that succeeded is above its limit, memory or load |
| Guard.SamplerNoFlapping | sov-probe/src/guard/breaker.rs:82-92 | Between a set for memory and a clear, the resident size has fallen by more than a fifth of the limit |
| Guard.LoadNoFlapping | sov-probe/src/guard/breaker.rs:99-106 | Between a set for the load and a clear, the load has fallen by more than a fifth of its limit, however low the wrapped threshold |
| Guard.SamplerClears | sov-probe/src/guard/breaker.rs:78-109 | Exactly when a round clears the flag: memory at most 80% of its limit, ten times the load at most eight times its limit modulo 256, each if it could be read; also when neither could |
| Guard.CpuBandExact | sov-probe/src/guard/breaker.rs:99-106 | The load's recovery threshold is 80% of the limit if and only if the limit is at most 31 |
| Capturing.Capture.Send | sov-probe/src/capture/mod.rs:108-110 | The record goes last; a full queue first loses its front to the writer, and the capacity holds |
| Capturing.Capture.Consume | sov-probe/src/capture/mod.rs:95-113 | Sent records, drop counter and flag are those of the loop on values; the queue is what the writer has not taken of the old one and the sent ones |
| Pipeline.Conservation | sov-probe/src/capture/mod.rs:95-113 | In every interleaving each consumed frame is in exactly one place, the counters and the frames in hand add up to the frames consumed, and the segments hold the written records in capture order, each made from its own frame |
| Pipeline.StepSound | sov-probe/src/wal/writer.rs:89-99 | Every step of every thread keeps each frame in one place and the orders ascending |
| Pipeline.StepGenuine | sov-probe/src/parse/slicer.rs:23-71 | Every record anywhere was made from the frame with its number; rejected frames are exactly not IPv4 TCP or UDP |
| FlagReads.DroppedWhenTaken | sov-probe/src/capture/mod.rs:95-101 | In every interleaving a frame is dropped at capture if and only if the flag was set at the step that took it |
| FlagReads.DiscardedWhenHandled | sov-probe/src/wal/writer.rs:106-111 | In every interleaving a record is dropped by the writer if and only if the flag was set when it was handled, and written if and only if it was clear |
| FlagReads.BitTells | sov-probe/src/parse/slicer.rs:23-71 | In every interleaving the time and the DEGRADED bit of every record are those of the step that sliced its frame |
| CaptureRefinement.CaptureRefined | sov-probe/src/capture/mod.rs:95-113 | In every interleaving, with any steps of the others between any two of its own, what capture has dropped and sent is what its loop does with the frames consumed, each with the values the flag had at the steps that took and sliced it |
| WriterRefinement.WriterRefined | sov-probe/src/wal/writer.rs:89-100 | In every interleaving, with any steps of the others between any two of its own and the watermark check split into reading the fill and setting the flag, the writer is at each point where its loop on values is after the turns, and the part of one, that the steps since then amount to |
| WriterRefinement.LoopRefined | sov-probe/src/wal/writer.rs:89-100 | At the top of the loop queue, flag, segments and drop counter are exactly those of the loop on values over these turns |
| WriterRefinement.ArrivalsAreSent | sov-probe/src/capture/mod.rs:108-110 | What arrives in these turns, one after the other, is exactly what capture sent in the meantime |
| WriterRefinement.FlagsAreStored | sov-probe/src/guard/breaker.rs:70-112 | A value of the flag that comes from outside in these turns was stored by the sampler in the meantime |

## Left out

- eBPF loading, the ring buffer, poll and the kernel program: a frame from the ring is an input.
- Frame parsing by etherparse: the parsed fields and the application payload are the input of the slicer.
- Zenoh sessions, tasks, timers, decryption and the slim-common frame codecs: a frame arrives decoded, and decryption either fails or yields what was sent.
- Failed disk writes and opens at the receiver, which the code ignores while the watermark advances: writes succeed.
- `BufWriter`: modelled as a buffer of which any prefix may reach the file at any time.
- Clocks: whether the rotation interval is over is a boolean of each turn, and a timeout is an empty queue.
- procfs readings: arbitrary numbers, or none when reading fails. The load percentage is taken after its conversion.
- u64 exhaustion: segment numbers are bounded by assumption; byte and record counters are unbounded integers.
- Errors that end the writer's thread, and capture's end when the queue is closed: runs stop anywhere, so safety covers them.
- Statistics that nothing reads back: total_chunks, placed_chunks, dup_dropped, frames_by_segment, pend_dropped, and the log output; also the chunk_len check, which only warns.
- The ledger file, `mark_read` and the directory's write check: advisory text and plumbing.
- sov2pcap, the metrics endpoint, configuration, command line, the genwal tools and scripts: they would add only easy members.
- WriterThread.WalWriter.Run: asks, like the other operations that may allocate again, that stray names leave room for a segment; otherwise the second allocation does not end, as RotationRuns.SecondNeverEnds shows.
- Reassembly.Reassembler.RefillSegment: the sender's side, which cuts a segment again from the watermark, is not part of this model; what it re-sends arrives as frames.
