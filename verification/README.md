# RobustMQ journal segments, modelled and proved in Dafny

RobustMQ stores messages in journal segments. A segment is an append-only file of frames
`[offset: u64][len: u32][data]`. One writer thread gives the offsets. A background builder derives a sparse
offset and time index and a dense key and tag index in an ordered key-value store, and reads by offset, key,
tag and time use them. Clients send batches whose messages carry packet ids, and the replies find their way
back by those ids. This project models that engine from bytes to clients, and four smaller parts of the same
repository: the QoS 2 receiver, the retry loop, topic rewriting and delayed topics.

`dafny verify dfyconfig.toml` checks everything. The files build on each other in this order.

- `Options`, `Bytes`, `Strings`, `Decimal`: casts and wrapping `u64`, big-endian numbers, byte order on keys, decimal numerals.
- `SegmentLog`, `SegmentFile`: the frame log as a mathematical object, and the file class over bytes proved against it.
- `Store`, `Keys`, `IndexDeletion`, `TimeIndex`: the ordered store with its iterator loops, the key formats, what prefixes select.
- `Segments`, `JournalSystem`: one segment as a state machine. A step is a batch, a thread start or stop, a status
  change, **one single store write of the builder**, a failed save, a restart, a batch in which something fails or the
  process stops and the restart after it, or a foreign write to the shared store.
- `JournalInvariant`, `JournalRuns`, `JournalTheorems`, `JournalBounds`: what every step keeps, and what follows for
  every state of every run.
- `JournalBases`: the one restart that can change the base of the sparse index, and its contents from then on.
- `SegmentNode`, `IndexBuilder`: the writer and the builder as imperative code. From a sound state, thread start and
  stop, restart, a batch without a fault and a round of the builder are proved to be sequences of enabled steps of the
  machine, and such a sequence from an initial state is a run (`SegmentNodes.LeadsIsRun`), so the theorems about runs
  hold for them. What a batch with a fault does is stated exactly, from any state; with the restart after it, it is a
  step of the machine too unless the save of the end offset failed (`SegmentNodes.RestartAfterBatch`).
- `JournalProgress`, `PassedOver`: which rounds of a builder are possible, from which states the index can come to
  cover the file, and a run in which records stay without their sparse entry for good.
- `Reads`: index and file together, for reads by key, by tag and by offset.
- `BatchFaults`: what exactly I/O errors inside a batch break and what repairs it.
- `JournalServer`: the write request over many segments, each behind its `SegmentNode`, with one shared store.
- `ClientBatch`, `ClientWrite`: numbering, grouping, sending and answering a batch of packages, over a link that may
  lose the request or its answer.
- `PlainCodec`: a record encoding that meets every premise made of one, and a server to which batches can be sent.
- `SegmentStatus`: the status protocol of a shard, its cache and the placement center.
- `Qos2`, `Retry`, `TopicRewrite`, `DelayTopic`.

Record fields have the width of the source (`u64`, `u32`, `i64`). Record encoding is a pair of functions with
`decode(encode(r)) == Some(r)`. Whatever depends on an encoding being non-empty says so. Map iteration order and
node behaviour are nondeterministic choices or parameters. I/O fails at any moment; a ghost counter of failures says
exactly when a method may report one.

## Where the code and its promises part

Each of these is a lemma with the exact condition, or a concrete case beside it.

- A write that is cut short leaves part of a frame, which a reader takes for the end, an error or a body, depending on
  where it was cut (`SegmentFiles.CutFile`, `SegmentFiles.CutFrame`).
- `read_by_offset` documents that the total size and the count stay within the limits. The code checks the size before
  each record, so the last one may exceed it, and a count of 0 returns one record (`SegmentLog.ExactRead`).
- The "last nearest" position lookup returns the first entry at or above the request in byte order of the decimal text.
  An indexed read therefore skips records unless it finds nothing or the exact offset (`Reads.OffsetReadInRuns`,
  `Reads.RequestPassesOwnEntry`).
- A new segment has start offset -1, so its sparse entries stand at 9999, 19999 and so on, until a restart moves the
  base to 0 (`JournalTheorems.SparseEntriesOfFirstLife`). That happens at most once (`JournalBases.BaseMovesOnce`), and
  from then on entries stand at multiples of 10000 as well (`JournalBases.ExactAcrossBases`). But a builder resumes at
  the entry that comes first as text, and a due record that lies before it never gets an entry
  (`JournalBases.PassedOverForGood`). Such a run exists (`PassedOver.NeverAgain`).
- The builder always reads its last record again, so it never reads nothing from a non-empty segment and never marks
  one as finished (`JournalTheorems.FinishedOnlyWhenEmpty`). A record above 10 MiB holds it up for good, and no later
  record is ever found by key or tag (`JournalBounds.HeldUpForGood`). Without one, rounds that save everything cover
  the file (`IndexBuilders.BuildRounds`, `JournalProgress.CoverableIff`).
- Errors inside a batch leave the end offsets apart (`BatchFaults.FaultsBreakAgreement`). A new thread or a restart
  repairs that unless it was the save of the end offset that failed (`BatchFaults.RestartHeals`).
- Deleting a segment does not delete its file (`src/journal-server/src/core/segment.rs:39-56` looks for it after
  dropping the segment from the cache). Created again under the same name, the segment takes the old file over and
  gives offset 0 again (`BatchFaults.RecreatedRepeats`).
- A write request that fails tells the client so for every message, although the segments before the failing one are
  written, and that one too when it failed only after the append. When only the answer is lost, everything is written
  (`ClientWrite.BatchSenderMessage`).
- When the writer seals a segment it changes only the cache. The write request looks for that error where it does not
  arrive (`src/journal-server/src/segment/write.rs:102-136`: it comes inside the answer), and a seal would do nothing
  for a segment already sealed. The placement center is not told (`SegmentStatus.SealIsNotReported`).
- The branch of the write request that saves a start offset is never taken in a run
  (`JournalBounds.StartOffsetIsNotGiven`).
- Sealing promotes the next segment whatever its status (`SegmentStatus.FallsBackIff`).
- A read by key also returns records whose key continues the one asked for past a slash (`Reads.ExactlyTheWord`).
- A comma in a namespace or shard name lets two segments share a name, and packages go to the wrong one
  (`ClientBatch.NeverMisroutedIff`).
- Packages without messages are never answered (`ClientWrite.BatchSenderMessage`).
- In persistent mode a QoS 2 message can be stored twice (`Qos2.RetryAfterFailedNote`), and a packet id can be noted
  or cleared although the call reports an error. The laws count these cases; in non-persistent mode there are none
  (`Qos2.AllTold`).
- Rules with equal timestamps make rewriting depend on map order (`TopicRewrite.OrderDeterminedIff`), and a publisher
  can miss a subscriber because publishing stops at the first rule (`TopicRewrite.MeetIff`).

## Model

| member | source | states |
|---|---|---|
| JournalRuns.StepKeepsInv | src/journal-server/src/index/build.rs:105-263 | every step of writer, builder, status change, restart, stop inside a batch and foreign write keeps the invariant that ties file, memory, store, thread counter, index entries and builder position together |
| JournalRuns.RunsKeepInv | src/journal-server/src/index/build.rs:46-263 | every state of every run satisfies that invariant |
| JournalTheorems.NoRecordSkipped | src/journal-server/src/index/build.rs:72-83 | stop anywhere in any run: every record a builder started from the stored state would pass over is already in the key and tag indexes with its true byte position |
| JournalTheorems.SparseEntryMeansIndexedBelow | src/journal-server/src/index/build.rs:216-263 | in every run a sparse entry at offset o is true, and all records below o are fully indexed |
| JournalTheorems.FrontierIndexed | src/journal-server/src/index/build.rs:160-180 | every record up to the saved last built offset is indexed, and the start offset is saved |
| JournalTheorems.FrontierCovers | src/journal-server/src/index/build.rs:287-313 | when the saved offset is that of the last record, the whole file is indexed |
| JournalTheorems.SparseContents | src/journal-server/src/index/build.rs:224-261 | when every builder of a run uses one base, a processed record has a position entry if and only if its offset is congruent to the base modulo 10000; the entry is its frame start and its timestamp has an entry too |
| JournalTheorems.SparseEntriesOfFirstLife | src/journal-server/src/segment/manager.rs:260-269 | before any restart the entries stand exactly at offsets 9999 modulo 10000, and a restart then moves the base to 0 |
| JournalBases.BaseMovesOnce | src/journal-server/src/segment/manager.rs:199-214 | in every run the base changes at most once, with a restart, from -1 before it to 0 after it |
| JournalBases.SparseWithoutMove | src/journal-server/src/index/build.rs:224-261 | in a run in which it does not, a record up to the saved frontier has an entry if and only if its offset is 9999 modulo 10000 |
| JournalBases.SparseAcrossBases | src/journal-server/src/index/build.rs:72-83 | in every run after the restart that moves the base: below the first record read since, entries are those that were there; from it on, a processed record has one if and only if it had one or its offset is a multiple of 10000; no other entries have come |
| JournalBases.ExactAcrossBases | src/journal-server/src/index/build.rs:224-261 | the same in offsets alone: entries stand exactly at 9999 modulo 10000 below some g and at multiples of 10000 from the first record read since on |
| JournalBases.StartDue | src/journal-server/src/index/build.rs:72-103 | a builder that starts later begins at or past that first record, and everything due before its beginning has its entry |
| JournalBases.OldEntryDue | src/journal-server/src/index/offset.rs:118-162 | a builder that resumes from an older entry leaves no due record behind: between its frontier and that entry there is at most one, and that one has been read |
| Decimal.NinesOrder | src/journal-server/src/index/offset.rs:118-162 | of numbers that end in 9999, one that comes as text before the one 10000 below it comes before every smaller one |
| JournalBases.PassedOverForGood | src/journal-server/src/index/build.rs:72-83 | a multiple of 10000 before the first record read since never gets an entry, in any continuation |
| JournalBases.ResumePassesOver | src/journal-server/src/index/offset.rs:118-162 | with a last built offset from 20000 to 99999 and an entry for 109999, a builder begins past record 100000 |
| PassedOver.PassingRun | src/journal-server/src/index/build.rs:168-180 | such a state is reached: a run of 120000 records whose later saves of the last built offset fail, ending with the restart that moves the base |
| PassedOver.NeverAgain | src/journal-server/src/index/build.rs:72-83 | however that run goes on, no multiple of 10000 below 100000 ever has a position entry |
| JournalTheorems.ReindexingChangesNothing | src/journal-server/src/index/build.rs:136-171 | in every run and for any base, a write made again for a record changes nothing if its name is stored, unless it is a timestamp entry that names another record of the same second |
| JournalTheorems.FinishedOnlyWhenEmpty | src/journal-server/src/index/build.rs:202-214 | a builder can mark the index finished if and only if it is about to read a sealed segment that is empty |
| JournalTheorems.MarkStops | src/journal-server/src/index/build.rs:202-214 | the finish mark is stored with its time and keeps builders from starting |
| JournalTheorems.RoundMovesFrontier | src/journal-server/src/index/build.rs:136-180 | where a round begins, and that it ends past the last built record if and only if it begins past it or there is a later record and the first one read is at most 10 MiB |
| JournalTheorems.EndOffsetsAgree | src/journal-server/src/segment/write.rs:395-436 | in every state of every run the thread counter, the memory, the store and the last frame agree on the end offset, -1 when empty, and the file holds offsets 0..n-1 |
| JournalTheorems.NeverPastTheEnd | src/journal-server/src/segment/write.rs:441-486 | no offset in the file ever exceeds a positive installed end offset |
| JournalTheorems.BatchAtTheEnd | src/journal-server/src/segment/write.rs:441-486 | a batch that would pass the end seals the segment and writes nothing; any other is appended whole to a known, unsealed segment and refused by any other |
| JournalTheorems.SealedStaysFrozen | src/journal-server/src/segment/write.rs:441-482 | a sealed segment stays closed and its file unchanged over any run whose promotions hit only segments not past Write and whose restarts and cache updates do not reopen it |
| JournalTheorems.StatusSteps | src/journal-server/src/core/segment_status.rs:28-173 | what the status changes, an installed end and a stopped builder do to a segment |
| JournalRuns.RestartStep | src/journal-server/src/segment/manager.rs:199-214 | a restart is always possible, keeps the invariant and loads the end offset that was in memory, and 0 or -1 as the start offset |
| JournalRuns.StopStep | src/journal-server/src/segment/write.rs:395-436 | a batch in which anything fails or the process stops, but not between append and save of the end offset, followed by a restart, is always possible and keeps the invariant |
| JournalRuns.StartIsSafe | src/journal-server/src/index/offset.rs:118-162 | the entry a starting builder resumes from is true and everything before it is indexed |
| JournalRuns.ReadIsSlice | src/journal-server/src/segment/file.rs:152-209 | on contiguous offsets a read is a slice of the log, empty exactly when nothing is left, of one record exactly when the limits or the end force it |
| JournalBounds.HeldUpForGood | src/journal-server/src/index/build.rs:119-180 | in every state of every run with a record above 10 MiB, the saved frontier and a running builder are at or below it, and no later record has a position, key or tag entry |
| JournalBounds.SparseEntriesSpaced | src/journal-server/src/index/build.rs:236-248 | in every run, whatever bases mix, position entries stand at 0 or 9999 modulo 10000 |
| JournalBounds.StartOffsetIsNotGiven | src/journal-server/src/segment/write.rs:152-170 | in every run the start offset in memory is -1, or 0 for a non-empty file, and no offset given to a record equals it |
| JournalBounds.StoredBefore | src/journal-server/src/index/build.rs:216-313 | what is stored under a name of the segment after a step was there before, or that step put it there |
| SegmentNodes.LeadsIsRun | src/journal-server/src/index/build.rs:105-200 | enabled steps from an initial state are a run |
| SegmentNodes.LeadsExtends | src/journal-server/src/index/build.rs:105-200 | enabled steps from the last state of a run continue that run |
| SegmentNodes.LeadsKeepInv | src/journal-server/src/index/build.rs:105-200 | whatever enabled steps lead to satisfies the invariant |
| SegmentNodes.SegmentNode.constructor | src/journal-server/src/segment/manager.rs:225-276 | a new local segment has -1 for every offset whatever its file holds; with an empty file and no stored keys it is an initial state of the machine |
| SegmentNodes.SegmentNode.CreateWriteThread | src/journal-server/src/segment/write.rs:240-279 | from any state a thread starts at the end offset in memory, unless the segment is unknown or has no directory; a step of the machine when the state is sound |
| SegmentNodes.SegmentNode.StopWriteThread | src/journal-server/src/segment/write.rs:296-303 | from any state the thread is dropped; a step of the machine when the state is sound |
| SegmentNodes.SegmentNode.GetOffset | src/journal-server/src/index/offset.rs:56-100 | a stored number, or -1; an error exactly when the access fails or the number does not read as `i64` |
| SegmentNodes.SegmentNode.LoadLocalSegment | src/journal-server/src/segment/manager.rs:143-218 | from any state the restart step, exactly when both offsets load: no threads, the loaded status, and the stored offsets or -1; from a sound one it is always enabled and the end offset in memory comes back unchanged |
| SegmentNodes.RestartAfterBatch | src/journal-server/src/segment/manager.rs:143-218 | whatever a batch leaves, unless its save of the end offset failed, loads, and both together are one step of the machine |
| SegmentNodes.SegmentNode.WriteValidator | src/journal-server/src/segment/write.rs:441-482 | the refusal for an unknown, a sealed or a metadata-less segment, or a batch past a positive end, in that order; the segment is sealed exactly in the last case |
| SegmentNodes.SegmentNode.AssignOffsets | src/journal-server/src/segment/write.rs:406-417 | records stamped with consecutive wrapping offsets, and the map from packet id to offset |
| SegmentNodes.SegmentNode.BatchWrite0 | src/journal-server/src/segment/write.rs:395-436 | file, memory, store and answer for each place at which it can fail, and which failure is which |
| SegmentNodes.SegmentNode.BatchWrite | src/journal-server/src/segment/write.rs:313-390 | from any state the whole new state, the answer and the builder for a packet, whatever fails; a fault is reported exactly when an access failed, the records are in the file exactly when the write did not; without a fault a sound state leads by the batch, and by the start of a builder exactly when the batch was accepted, none ran and no mark is stored, to a sound one |
| SegmentNodes.SegmentNode.TryTriggerBuildIndex | src/journal-server/src/index/build.rs:46-103 | when it succeeds and no builder runs and no finish mark is stored, a builder stands ready to read, with the start offset in memory as its base and the last built offset and position that the store gives; otherwise nothing changes; it fails exactly when an access fails or the segment cannot be opened |
| IndexBuilders.SaveRecord | src/journal-server/src/index/build.rs:224-261 | the saves for one record are steps of the machine in the source's order, up to the first that fails |
| IndexBuilders.SaveRecordIndex | src/journal-server/src/index/build.rs:216-263 | the same over all records read |
| IndexBuilders.BuildRound | src/journal-server/src/index/build.rs:125-200 | one round is a sequence of enabled steps of the machine that keeps the invariant; it changes nothing when there is nothing to read, and without a failed save it keeps and saves the offset of the last record read |
| IndexBuilders.RoundIndexes | src/journal-server/src/index/build.rs:125-200 | after such a round every record up to that offset is indexed |
| IndexBuilders.BuildRounds | src/journal-server/src/index/build.rs:119-200 | from any state of any run, as many rounds as there are records, with no failed save and nothing appended meanwhile, end with the saved frontier at the last record if and only if no record before the last is above 10 MiB; the rounds are enabled steps of the machine |
| IndexBuilders.CoveredIff | src/journal-server/src/index/build.rs:119-200 | for a builder of a run that has gone through as many clean rounds as there are records: the frontier is at the last record if and only if no record before the last is above 10 MiB |
| JournalProgress.CanReach | src/journal-server/src/index/build.rs:119-200 | if no record is above 10 MiB, steps of the builder alone lead it to any record, with its frontier saved or not |
| JournalProgress.FullRound | src/journal-server/src/index/build.rs:119-136 | a round over records of at most 100 KiB reads a hundred of them or all that are left |
| JournalProgress.CoverableIff | src/journal-server/src/index/build.rs:46-200 | from any state of any run steps that append nothing can bring the saved frontier to the last record if and only if it is there, or a builder runs or may start and no record before the last is above 10 MiB |
| IndexBuilders.WriteLayout | src/journal-server/src/index/build.rs:224-261 | which write for a record comes when |
| BatchFaults.FaultsBreakAgreement | src/journal-server/src/segment/write.rs:313-346 | after a batch the four end offsets agree if and only if it was rejected, nothing failed, the file write and then the trigger failed, or the file write alone failed on a segment of exactly one record |
| BatchFaults.BatchLeft | src/journal-server/src/segment/write.rs:313-436 | file, memory, store and thread after an accepted batch, for each of the six faults, in offsets and times |
| BatchFaults.RecreatingHeals | src/journal-server/src/segment/write.rs:240-279 | recreating the thread restores agreement if and only if the fault was not the save of the end offset |
| BatchFaults.RestartHeals | src/journal-server/src/segment/manager.rs:143-218 | so does a restart: if and only if the fault was not the save of the end offset |
| BatchFaults.NextBatchContiguous | src/journal-server/src/segment/write.rs:395-436 | the next batch keeps the file contiguous if and only if the counter is the last offset |
| BatchFaults.RecreatedRepeats | src/journal-server/src/segment/manager.rs:225-276 | a segment created over an existing file gives its first batch the offsets from 0 again; the file stays contiguous if and only if it was empty |
| Segments.EndOffsetMeaning | src/journal-server/src/segment/write.rs:484-486 | the wrapping comparison says that the batch would pass the installed end |
| Segments.VerdictMeaning | src/journal-server/src/segment/write.rs:441-486 | exactly which batch is refused how, and which is accepted |
| Segments.OffsetMapExact | src/journal-server/src/segment/write.rs:406-417 | with distinct packet ids the reported map holds every record's offset under its own id and nothing else |
| Segments.OffsetMeaning | src/journal-server/src/segment/write.rs:406-417 | the first offset of an empty segment is 0 and offsets go up by one, through -1 as `u64` |
| Segments.StampContiguous | src/journal-server/src/segment/write.rs:395-436 | stamped records extend a contiguous log if and only if the local end is its last offset |
| SegmentFiles.SegmentFile.Write | src/journal-server/src/segment/file.rs:113-126 | the bytes of the file are the frames of the old log and the new records, or unchanged |
| SegmentFiles.SegmentFile.ReadByOffset | src/journal-server/src/segment/file.rs:152-209 | from any position of any bytes, what the byte format says; from any frame start of an intact file what the recursion over records returns; a position beyond `i64` is an error |
| SegmentFiles.SegmentFile.ReadByPositions | src/journal-server/src/segment/file.rs:214-255 | at any positions of any bytes, what the byte format says; on record starts of an intact file the records at them, in the order asked, up to the first position past the end, which drops all that follow |
| SegmentFiles.BytesOfFrames | src/journal-server/src/segment/file.rs:152-209 | on frames with any bytes behind them a read is the recursion over the records, and goes on behind them if and only if neither limit is reached |
| SegmentFiles.CutFile | src/journal-server/src/segment/file.rs:113-126 | a file on which a write was cut short is that of the old and some of the new records, with part of one frame behind them |
| SegmentFiles.CutFrame | src/journal-server/src/segment/file.rs:152-209 | what a read of such a file returns, for every place of the cut |
| SegmentLog.FieldsAt | src/journal-server/src/segment/file.rs:152-209 | at a record's position a reader finds its offset, its length and its whole encoding |
| SegmentLog.FramesAppend | src/journal-server/src/segment/file.rs:113-126 | appending records appends their frames |
| SegmentLog.ReadFromGreedy | src/journal-server/src/segment/file.rs:152-209 | a read takes a prefix of the matching records, namely the greedy one |
| SegmentLog.GreedyUnique | src/journal-server/src/segment/file.rs:152-209 | only one count is greedy |
| SegmentLog.ExactRead | src/journal-server/src/segment/file.rs:131-209 | a read is exactly the longest prefix of the matching records whose bodies but the last sum to at most the size, of at most max(1, max_record) records, each at its position |
| SegmentLog.PositionRoundTrip | src/journal-server/src/segment/file.rs:152-255 | reading back the positions an offset read reported returns the same result if and only if no record in it encodes to nothing |
| SegmentLog.ReadAtRecords | src/journal-server/src/segment/file.rs:214-255 | positions of given records read back exactly those records in that order |
| Bytes.BERoundTrip | src/journal-server/src/segment/file.rs:113-126 | a big-endian number reads back |
| Bytes.FirstByteWeighs | src/journal-server/src/segment/file.rs:113-126 | the first byte of a number weighs most |
| Store.BlockIsPrefixScan | src/common/rocksdb-engine/src/lib.rs:119-142 | the keys from the seek point to the first without the prefix are exactly all keys with it, sorted |
| Store.RocksStore.ReadPrefix | src/common/rocksdb-engine/src/lib.rs:119-142 | exactly the entries whose key has the prefix, in byte order |
| Store.RocksStore.Save | src/common/rocksdb-engine/src/engine.rs:24-51 | one key changed, or nothing on failure |
| Store.RocksStore.Get | src/common/rocksdb-engine/src/engine.rs:53-67 | the stored value or none, or a failure |
| Store.RocksStore.Delete | src/common/rocksdb-engine/src/engine.rs:69-83 | one key removed, or nothing on failure |
| Store.RocksStore.CollectFrom | src/journal-server/src/index/tag.rs:121-171 | the iterator loop returns the entries under the prefix at or above the start, in byte order, cut to the limit |
| Store.RocksStore.FirstFrom | src/journal-server/src/index/offset.rs:118-162 | the iterator loop returns the least key in byte order whose entry ranks at or above the bound, or none |
| Keys.RenderInjective | src/journal-server/src/index/keys.rs:17-119 | two names of one segment never share a key, whatever keys and tags contain |
| Keys.FrontText | src/journal-server/src/index/keys.rs:17-119 | the text of a key up to what it is about |
| Keys.TailTexts | src/journal-server/src/index/keys.rs:17-119 | the rest of it, for each of the ten kinds |
| Keys.PositionKeys | src/journal-server/src/index/keys.rs:31-43 | the position prefix selects exactly the position entries of the segment |
| Keys.TimeKeys | src/journal-server/src/index/keys.rs:59-71 | the time prefix selects exactly the time entries |
| Keys.KeyKeys | src/journal-server/src/index/keys.rs:86-98 | a key prefix selects exactly the key entries whose key is the one asked for or continues it past a slash |
| Keys.TagKeys | src/journal-server/src/index/keys.rs:73-84 | the same for tags |
| Keys.SegmentsApart | src/journal-server/src/index/keys.rs:114-119 | with slash-free names the prefix of one segment starts a key of another if and only if they are the same |
| Keys.SlashInShardName | src/journal-server/src/index/keys.rs:114-119 | for every segment there is a shard name with a slash all of whose keys lie under its prefix |
| IndexDeletion.PrefixMap | src/common/rocksdb-engine/src/engine.rs:129-157 | the entries under a prefix, all and only |
| IndexDeletion.DeleteSegmentIndex | src/journal-server/src/index/build.rs:315-334 | on success exactly the keys under the segment's prefix are gone; no other key is touched even on failure, which happens exactly when a delete fails |
| IndexDeletion.DeletionIsExact | src/journal-server/src/index/build.rs:315-334 | with slash-free names a stored key survives if and only if it belongs to another segment |
| IndexDeletion.DeletionReachesOtherShard | src/journal-server/src/index/build.rs:315-334 | for every segment, deleting it takes all keys of that other shard |
| Reads.WordReadIsLogFilter | src/journal-server/src/segment/read.rs:181-224 | when the index covers the file, a read by key or tag returns the records of exactly the selected entries with true positions, in byte order, cut to the limit |
| Reads.WordReadInRuns | src/journal-server/src/segment/read.rs:181-224 | the same in every run in which the saved frontier is the last record |
| Reads.EntriesUnique | src/journal-server/src/index/tag.rs:121-171 | the list of entries is determined by its elements and its order |
| Reads.ExactlyTheWord | src/journal-server/src/index/tag.rs:39-171 | the read returns exactly the records carrying the word if and only if none from the start on carries a continuation past a slash; then without repeats and in decimal byte order |
| Reads.ReadByWord | src/journal-server/src/segment/read.rs:181-224 | the code for both reads returns the records of the first selected entries, as many as the limit allows, where 0 counts as 1 |
| Reads.IndexedReadAgainstScan | src/journal-server/src/segment/read.rs:149-176 | an indexed read is the plain scan from the entry found, and the plain scan from the request if and only if every position entry lies below the request, or the request has its own and none at or above it comes before that as text |
| Reads.OffsetReadInRuns | src/journal-server/src/segment/read.rs:149-176 | both statements in every state of every run |
| Reads.ReadByOffset | src/journal-server/src/segment/read.rs:149-176 | the code returns the scan from the entry found |
| Reads.FirstPosition | src/journal-server/src/index/offset.rs:118-162 | the lookup returns a true entry at or above the request, least in decimal byte order, or none exactly when there is none |
| Reads.RequestPassesOwnEntry | src/journal-server/src/index/offset.rs:150-155 | in every run without a restart, once record 19999 is indexed, a read from 9999 differs from the plain scan although 9999 has its entry |
| TimeIndex.FirstTime | src/journal-server/src/index/time.rs:118-162 | the lookup returns a true entry at or above the query, least in decimal byte order, or none exactly when there is none |
| TimeIndex.NearestTimeIff | src/journal-server/src/index/time.rs:118-162 | it is the numerically least one if and only if no candidate with more digits comes before that one as text |
| TimeIndex.NearestTimeSameDigits | src/journal-server/src/index/time.rs:102-162 | when all timestamps have one number of digits the lookup is a numeric search |
| TimeIndex.TimeLookupInRuns | src/journal-server/src/index/time.rs:118-162 | in every state of every run: a true entry at or above the query or none exactly when there is none, and when it is the nearest |
| TimeIndex.NearestByTime | src/journal-server/src/index/time.rs:118-162 | the code returns that entry |
| ClientBatch.OwnsNameIff | src/common/metadata-struct/src/journal/segment.rs:57-59 | a segment has its name to itself if and only if its namespace and shard name have no comma |
| ClientBatch.NeverMisroutedIff | src/journal-client/src/async_writer.rs:295-361 | packages for a segment are always sent to it if and only if its names have no comma |
| ClientBatch.CommaMisroutes | src/journal-client/src/async_writer.rs:295-361 | a misrouted package |
| ClientBatch.GroupBySegment | src/journal-client/src/async_writer.rs:303-318 | each group is all packages of one segment name, in arrival order |
| ClientBatch.GroupFront | src/journal-client/src/async_writer.rs:303-318 | the packages of a group before a given one are exactly those of its segment that came before it |
| ClientBatch.AddPackage | src/journal-client/src/async_writer.rs:330-350 | one fresh packet id per message, in order, each message at the place after those that came before it, and the tracking of other packages untouched |
| ClientBatch.BuildSendData | src/journal-client/src/async_writer.rs:295-361 | for any map order: one part per segment with exactly the messages sent to it in the order in which they came, every message under its own packet id, no id used twice, ids counted up from the generator, every message owned by one package, the generator advanced by the number of messages |
| JournalServers.RunsAreReady | src/journal-server/src/segment/write.rs:240-346 | every state of every run is one the write request can start from |
| JournalServers.TakesIff | src/journal-server/src/segment/write.rs:441-486 | the writer takes n messages if and only if the segment is known, not sealed, has metadata, and they end at or before a positive end offset |
| JournalServers.BuildRecords | src/journal-server/src/segment/write.rs:78-100 | one record per message, with its packet id, key, content and tags and the names of its segment |
| JournalServers.BatchAppends | src/journal-server/src/segment/write.rs:395-436 | a batch the writer takes is in the file in order whatever fails afterwards, and not at all if the write fails |
| JournalServers.StartNotReported | src/journal-server/src/segment/write.rs:152-170 | none of the offsets reported is the start offset in memory |
| JournalServers.WriteNode | src/journal-server/src/segment/write.rs:84-149 | one segment through its writer thread: the messages are in the file if and only if the writer takes them and nothing fails before; it is answered, with every message's packet id and the offset it is stored at, if and only if, besides, nothing fails after; refused, empty or answered too late, it is ready for the next request, unless a file write, a store access or the start of a builder failed |
| JournalServers.GiveRecords | src/journal-server/src/segment/write.rs:100-176 | the same from the moment the records go to the running thread |
| JournalServers.JournalServer.WriteSegment | src/journal-server/src/segment/write.rs:70-176 | the same in a server of many segments, the others untouched and the server valid again |
| JournalServers.JournalServer.WriteDataReq | src/journal-server/src/segment/write.rs:62-179 | the segments of a request in turn, up to the first that fails; a served request, and any that fails without such harm, leaves the server valid |
| JournalServers.OutcomeOf | src/journal-server/src/segment/write.rs:62-179 | which segments are then written and answered, and that the request succeeds if and only if every segment takes its part and nothing fails |
| ClientWrite.ServedIff | src/journal-client/src/async_writer.rs:226-361 | seen from the packages: it succeeds if and only if every target is known, takes all messages sent to it, at least one, and nothing fails |
| ClientWrite.FilesAre | src/journal-client/src/async_writer.rs:226-361 | after any outcome each file has grown by exactly the messages sent to it, each at the offset its place among them gives, or not at all |
| ClientWrite.IndexReplies | src/journal-client/src/async_writer.rs:237-255 | every answered id is in the map, with an answer given for it |
| ClientWrite.Callbacks | src/journal-client/src/async_writer.rs:257-271 | for each package the answers to its ids in order |
| ClientWrite.SendRequest | src/journal-client/src/service.rs:151-181 | a request over the link: handled exactly when it arrives, untouched server when it is lost, success exactly when served and the answer arrives |
| ClientWrite.BatchSenderMessage | src/journal-client/src/async_writer.rs:226-292 | exactly the callers of non-empty packages are answered, one reply per message; the send succeeds if and only if every segment a package goes to takes its messages, nothing fails, and neither request nor answer is lost; then the k-th reply is the offset at which the k-th message is stored, which is the old length of the file plus the number of messages for that segment that came before it, no two messages share one, and every record added anywhere is named by a reply; otherwise every reply is an error, and of a request that arrived exactly the parts before the failing one, and that one if it failed after the append, are in the files, while a lost request changes nothing; unless something harmful failed the server is ready for the next send |
| PlainCodecs.PlainInverse | src/journal-server/src/segment/file.rs:113-126 | an executable encoding of records reads back |
| PlainCodecs.PlainMeets | src/journal-server/src/segment/file.rs:113-126 | it meets everything the model asks of an encoding |
| PlainCodecs.ModerateIsSmall | src/journal-client/src/async_writer.rs:226-292 | with it, every batch of messages below an explicit size meets the premise of a send |
| PlainCodecs.NewServer | src/journal-server/src/segment/manager.rs:225-276 | there is a valid server whose segment takes any such batch |
| PlainCodecs.SendOne | src/journal-client/src/async_writer.rs:226-292 | the first message to a new server is answered if and only if nothing is lost and nothing fails; then it is the one record of the file and the answer is offset 0 |
| SegmentStatus.FallsBackIff | src/journal-server/src/core/segment_status.rs:28-173 | an operation sends a segment back if and only if it seals before a segment past Write, or the writer seals one being deleted |
| SegmentStatus.RunsNeverFallBack | src/journal-server/src/core/segment_status.rs:28-173 | over every careful run status never goes back, and a sealed segment stays sealed |
| SegmentStatus.SealIsNotReported | src/journal-server/src/segment/write.rs:112-136 | after the writer has sealed, the seal call tells the center nothing about that segment |
| SegmentStatus.SealReportedIff | src/journal-server/src/core/segment_status.rs:145-173 | sealing is reported if and only if the cached status is PreSealUp |
| SegmentStatus.PreSealThenSeal | src/journal-server/src/core/segment_status.rs:28-54 | pre-sealing and then sealing takes a segment and the next from Write and Idle to SealUp and Write, in cache and center |
| SegmentStatus.CacheOnly | src/journal-server/src/core/cache.rs:252-261 | the writer's own seal and a new segment change the cache alone |
| SegmentStatus.SegmentCache.UpdateSegmentStatus | src/journal-server/src/core/cache.rs:252-261 | a known segment takes the status, an unknown one changes nothing |
| SegmentStatus.SegmentCache.PreSealUpSegment | src/journal-server/src/core/segment_status.rs:28-40 | in cache and center the segment goes from Write to PreSealUp and the next from Idle to PreWrite and nothing else changes; a failed call ends it there; no segment falls back |
| SegmentStatus.SegmentCache.SealUpSegment | src/journal-server/src/core/segment_status.rs:42-54 | in cache and center the segment goes from PreSealUp to SealUp and the next, whatever its status, to Write and nothing else changes; a failed call ends it there; no segment falls back if the next one is not past Write |
| Qos2.PkidKeyInjective | src/mqtt-broker/src/handler/cache.rs:450-452 | the table key tells (client, packet id) pairs apart whatever the client id contains |
| Qos2.PkidKeyText | src/mqtt-broker/src/handler/cache.rs:450-452 | the text of a table key |
| Qos2.Conservation | src/mqtt-broker/src/handler/mqtt.rs:465-563 | over every sequence of packets from any clients the successful PUBRECs of a pair and the ids noted untold are its successful PUBCOMPs and the ids cleared untold, plus one while it is recorded; in non-persistent mode the PUBRECs are the PUBCOMPs plus one while it is recorded |
| Qos2.StoredOncePerPubRec | src/mqtt-broker/src/handler/mqtt.rs:465-563 | the stored messages of a pair are its successful PUBRECs plus those stored without the sender being told; in non-persistent mode they are its successful PUBRECs |
| Qos2.NothingStoredMeanwhile | src/mqtt-broker/src/handler/validator.rs:277-307 | nothing is stored for a pair from the moment its packet id is taken, by a successful PUBREC or untold, until it is given back |
| Qos2.Handshake | src/mqtt-broker/src/handler/mqtt.rs:465-725 | in non-persistent mode, from any state: a free id is taken and its message stored once, a repeat refused, the release succeeds once, and the id is free again |
| Qos2.AllTold | src/mqtt-broker/src/handler/pkid.rs:29-115 | in non-persistent mode nothing is stored, noted or cleared without the sender being told |
| Qos2.RetryAfterFailedNote | src/mqtt-broker/src/handler/pkid.rs:29-58 | in persistent mode a failed note and a retry store a message twice |
| Qos2.Handler.HandlePublish | src/mqtt-broker/src/handler/mqtt.rs:291-563 | for each level and mode, on the tables themselves: a message is stored exactly when the packet passes all checks and, for QoS 2, its id is free; QoS 1 is then acknowledged, QoS 2 answered PUBREC and its id noted, or the failures in between |
| Qos2.Handler.HandlePubRel | src/mqtt-broker/src/handler/mqtt.rs:654-725 | a recorded pair is forgotten and answered PUBCOMP, any other refused; with a remote table as the calls turn out |
| Qos2.Handler.PkidExists | src/mqtt-broker/src/handler/pkid.rs:60-84 | looks the pair up in the table of the mode |
| Qos2.Handler.PkidSave | src/mqtt-broker/src/handler/pkid.rs:29-58 | notes the pair and reports so, notes it and reports an error, or changes nothing |
| Qos2.Handler.PkidDelete | src/mqtt-broker/src/handler/pkid.rs:86-115 | forgets the pair and reports so, forgets it and reports an error, or changes nothing |
| Retry.RetryCall | src/grpc-clients/src/utils.rs:44-125 | for any addresses, node behaviour and bound N the loop ends, attempts no address twice and at most 2(N+1) in all; rounds ask their node in order, a write the cached leader; a leader that a round's node names is called next unless it was called before, and kept for the round's address; the first result is returned at once, only a round's own node ends the retry with an error or a lost connection, and no leader is reported only after the node of every round was called |
| Retry.CallRound | src/grpc-clients/src/utils.rs:77-118 | the calls of one round, to its node and to the leader that node names |
| Retry.CacheHoldsLast | src/grpc-clients/src/utils.rs:88-91 | after a retry the cache holds for an address the last leader named for it |
| Retry.CacheKeepsRest | src/grpc-clients/src/utils.rs:88-91 | and what it held before where none was named |
| TopicRewrite.OrderDeterminedIff | src/mqtt-broker/src/handler/topic_rewrite.rs:24-80 | the sorted rule list is unique if and only if no two different rules have one timestamp |
| TopicRewrite.OrderDoesNotMatter | src/mqtt-broker/src/handler/topic_rewrite.rs:24-80 | rewriting is then independent of map order |
| TopicRewrite.EqualTimesDiffer | src/mqtt-broker/src/handler/topic_rewrite.rs:24-51 | two rules of one timestamp, two orders, two results |
| TopicRewrite.SortByTimestamp | src/mqtt-broker/src/handler/topic_rewrite.rs:28-32 | a sorted listing of all rules of the map |
| TopicRewrite.RewriteFilters | src/mqtt-broker/src/handler/topic_rewrite.rs:24-80 | every filter path, in place, is led by the rules of action All or Subscribe that match and generate, from the latest timestamp to the oldest; subscribe and unsubscribe alike |
| TopicRewrite.RewritePublishTopic | src/mqtt-broker/src/handler/topic_rewrite.rs:82-111 | publishing takes the latest matching rule of action All or Publish and stops, and changes nothing exactly when there is none |
| TopicRewrite.OneRule | src/mqtt-broker/src/handler/topic_rewrite.rs:24-111 | what one rule alone makes of a filter and of a published topic, for each action |
| TopicRewrite.LaterFirst | src/mqtt-broker/src/handler/topic_rewrite.rs:24-111 | of two rules the one with the later timestamp comes first |
| TopicRewrite.PublishRulesSpareFilters | src/mqtt-broker/src/handler/topic_rewrite.rs:24-80 | rules of action Publish can be left out without a change to any filter |
| TopicRewrite.SubscribeRulesSpareTopics | src/mqtt-broker/src/handler/topic_rewrite.rs:82-111 | rules of action Subscribe can be left out without a change to any published topic |
| TopicRewrite.MeetIff | src/mqtt-broker/src/handler/topic_rewrite.rs:24-111 | publisher and subscriber of one topic meet if and only if, by the kind of the latest rule that concerns it, the older rules take subscribers to where publishers go |
| TopicRewrite.PublisherMissesSubscriber | src/mqtt-broker/src/handler/topic_rewrite.rs:24-111 | two rules with which they do not |
| DelayTopic.JoinOfSplit | src/mqtt-broker/src/handler/delay_message.rs:28-44 | joining undoes splitting |
| DelayTopic.DecodeDelayTopic | src/mqtt-broker/src/handler/delay_message.rs:28-44 | the code that takes pieces off the list computes the specified decoding |
| DelayTopic.DecodeIff | src/mqtt-broker/src/handler/delay_message.rs:24-44 | exactly which inputs decode to which delay and topic |
| DelayTopic.NotDecodedIff | src/mqtt-broker/src/handler/delay_message.rs:24-44 | exactly which inputs are no delayed topics, and which have a bad delay |
| Decimal.ParseIff | src/mqtt-broker/src/handler/delay_message.rs:28-44 | exactly which texts are read as which number |
| DelayTopic.DelayRoundTrip | src/mqtt-broker/src/handler/delay_message.rs:24-44 | every delay below 2^64 and every topic come back, the topic with a slash before it |

## Left out

- SegmentFiles.SegmentFile.Write: a failed write is taken to leave the file unchanged; CutFile and CutFrame state what a write cut short leaves and what reads find then, but no run goes on from there.
- SegmentFiles.SegmentFile.ReadByOffset: the body read is taken to deliver all bytes of a body that are in the file.
- SegmentFiles.SegmentFile.ReadByPositions: the same.
- JournalTheorems.EndOffsetsAgree: runs contain no stop between append and save of the end offset, and no thread that goes on after a failed batch; what these do is stated in SegmentNodes.SegmentNode.BatchWrite and BatchFaults.
- SegmentNodes.SegmentNode.BatchWrite: one writer thread per segment and fewer than 2^63 records; the race that can create two threads is not modelled.
- SegmentNodes.SegmentNode.TryTriggerBuildIndex: two triggers at the same moment are not modelled.
- SegmentNodes.SegmentNode.LoadLocalSegment: the loaded timestamps and the walk over the data directories are left out.
- IndexBuilders.BuildRound: the pauses between rounds are left out; the stop signal and the mark after many empty reads are steps of the machine instead.
- IndexBuilders.BuildRounds: the loop is watched for a number of rounds, since the source's goes on for ever; the file is shorter than 2^63 bytes.
- JournalServers.WriteNode: every message encodes to less than 4 GiB, since the source truncates a longer frame length; a batch past 2^63 records is refused here; one whose answer comes too late is taken to be handled all the same.
- JournalServers.JournalServer.WriteDataReq: known segments have distinct names and files, because the source keys threads by name.
- ClientWrite.BatchSenderMessage: package ids are distinct, at most 2^64 messages go into one batch, and messages encode to less than 4 GiB.
- Retry.RetryCall: the leader cache is not changed by others meanwhile, and the pauses between rounds are left out.
- Qos2.Handler.HandlePublish: packets are handled one at a time; what is looked up and validated besides the packet id is given as outcomes of the packet.
- TopicRewrite.RewriteFilters: path matching and topic generation are parameters, since their regular expressions are not modelled.
- IndexDeletion.DeletionIsExact: slash-free names are a premise, because of Keys.SlashInShardName no condition on one segment alone would do.
- Sockets, TLS, QUIC, gRPC servers, connection pools, the command line and metrics: plumbing.
- Internals of RocksDB, prost, serde and tokio: an ordered map, an inverse pair of functions and atomic steps stand for them.
- Start and end timestamps in memory.
- `update_start_offset`, which saves the end offset as the start: JournalBounds.StartOffsetIsNotGiven shows that no run reaches it.
- The scroll manager that chooses an end offset, and the metadata calls that install it: installing one is a step of the environment.
- `delete_prefix`, which no modelled path uses.
- Receive quotas, outgoing packet ids and session removal: counters and maps without a law of their own.
- 32-bit exhaustion of segment numbers.
- Raft, access control, schemas, bridges, delay queues and flapping detection.
