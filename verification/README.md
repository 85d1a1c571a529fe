# A verified model of oxkv

oxkv is a key-value store with a log-structured engine over an object store. This
project models its hard parts in Dafny 4.11 and proves what they promise, for all inputs
and over whole runs.

`dafny verify dfyconfig.toml` checks the project.

## What is modelled

- **Read engine.** `Rows` holds the reference scan. `Merge` and `PullMerge` hold the
  materialized and the lazy heap merge, `Codec` the record frame, `Wal` the log payloads,
  `Bloom`, `Sst`, `SstRead` and `SstScan` the block file. `Read`, `RangeRead` and
  `LogicalMap` show that point and range lookups answer from one logical map.
- **SST cache.** `CachePolicy` is the S3-FIFO policy on three queues, `GhostQueue` its
  ghost accounting, and `SstCache` the class with sequence-tagged slots that refines it.
- **Writer.** `Compaction` and `CompactionPlan` cover file selection and replacement,
  `LevelRanges` what becomes of the key ranges, `Maintenance` the flush and compaction after a
  write.
  `Writer` is a state machine of staging, durable append, flush, compaction, WAL collection
  and crash. `Replays` compares WALs applied in any order with the log they come from;
  `StageOrder` and `Takeover` use it for staged writes and for several writers.
- **Protocols.** `Storage` is the in-memory object store with If-Match and If-None-Match
  (sections 13.1.1 and 13.1.2 of RFC 9110). `ManifestCas` and `Ownership` run any number of
  clients over it.
- **Followers.** `Reader` is the read-only view with its WAL overlay and its opening,
  `Mirror` the write-through RAM mirror.
- **Snapshots, paging, transactions.** `Snapshot` and `Save` are the streaming codec,
  `Paging` the inclusive-cursor scans, `Overlay` the scans under staged writes, `ChangeLog`
  the event log, `ChangeRace` racing writers of it.
- **Dates.** `Calendar` is the civil day count, `DateText` the literal shapes (section 5.6
  of RFC 3339 and the reduced ISO 8601 forms), `DateMatch` what terms and ranges match.

## Promises that do not hold as written

The model follows the code. Where the code falls short of a promise, a lemma or method
gives a failing input and another states exactly when the promise holds.

- A value of exactly `u32::MAX` bytes is read back as a deletion from WALs and SSTs
  (`Wal.MarkDecodesAsTombstone`, `Wal.BatchRoundTrip`, `SstRead.SstRoundTrip`).
- The backward scan does not dereference layer values (`LogicalMap.TaggedLayerFails`,
  `LogicalMap.PrevIsScan`).
- A comment says folding neighbours keeps level-1 ranges apart. It need not
  (`LevelRanges.FoldedRangesMayMeet`, `LevelRanges.ApartWhen`); without the fold it does
  (`LevelRanges.ApartWithoutFold`). The keys stay apart, so compaction is sound all the same.
- `gc_wal` called by itself can lose acknowledged writes (`Writer.CollectLosesWrite`,
  `Writer.CollectSafeWhen`).
- Staging a key while a batch on it is written splits the live view from the recovered one
  (`Writer.RacingStage`, `Writer.AppendKeepsRead`, `StageOrder.ReadsAreRightWhen`).
- The reader's overlay shadows the files while a WAL it never saw is collected
  (`Reader.EscapedWalIsShadowed`, `Reader.RunsAreRightWhen`), and so may the replay of an
  opening after it refreshes its list (`Reader.StaleOpening`, `Reader.OpeningIsRightWhen`).
- An append acknowledged by a superseded writer can be lost (`Takeover.LateAppendIsLost`,
  `Takeover.LateAppendSurvivesWhen`, `Takeover.AcknowledgedSurvivesWhen`).
- A poisoned mirror does not stay so until a refresh: a warm-up or an empty commit lifts
  the poison (`Mirror.ServePoisoned`).
- A driven warm-up loses keys when WALs are collected before it ends
  (`Mirror.OneBatchSuffices`, `Mirror.CachedStore.WarmPages`).
- The filtered scan skips its start key (`Paging.StartKeyIsMissed`, `Paging.StartIsSkipped`).
- `events_since(current_seq())` misses the next event, and no position asks for the first
  (`ChangeLog.NextEventIsMissed`, `ChangeLog.FirstEventIsMissed`,
  `ChangeLog.PositionThatMissesNothing`).
- Racing writers publish out of order: the history need not fold to the map
  (`ChangeRace.RacingWritersDisagree`, `ChangeRace.FoldIsRightWhen`), and a lost event need
  not refuse a reply (`ChangeRace.SilentGap`, `ChangeRace.ReplyIsWholeWhen`).
- An impossible day is not harmless: it leaves its month (`DateMatch.ImpossibleDayMoves`,
  `DateMatch.TermMatches`).
- Ghost weights drift when a key comes back with another weight
  (`GhostQueue.WeightChangeDrifts`, `GhostQueue.RememberBooked`); SST files never do.
- Two owners share an epoch once the counter saturates (`Ownership.TwoOwnersReached`,
  `Ownership.SharedWhenSaturated`).

## Model

| member | source | states |
|---|---|---|
| `Rows.ListsUnique` | src/store/btree.rs:271-354 | A map has at most one ascending listing; this is what makes every scan result below unique. |
| `Rows.InOrder` | src/store/btree.rs:271-290 | Walking a map key by key yields its ascending listing. |
| `Rows.FilterIsScan` | src/store/btree.rs:314-354 | Filtering the listing by the window, reversing it for `Prev` and truncating is the reference scan; a `Prev` scan without a start is empty. |
| `Merge.MergeSources` | src/store/lsm/merge.rs:19-29 | Filling a map newest source first lists exactly the live part of the newest-wins table, in key order. |
| `Merge.MergedGetsBytes` | src/store/lsm/merge.rs:160-216 | The materialized scan is the reference scan of the merged live map, for both directions, every cursor and limit. |
| `Merge.MergedAt` | src/store/lsm/merge.rs:19-29 | The first run that mentions a key decides it. |
| `Merge.DropHeadsMerged` | src/store/lsm/merge.rs:100-154 | Removing the smallest key from every run removes exactly that key from the merged table. |
| `Merge.MergeStep` | src/store/lsm/merge.rs:100-154 | The newest head of the smallest key is the first entry of the merged table. |
| `PullMerge.Peek` | src/store/lsm/merge.rs:55-98 | The heap top is the smallest key and, among equal keys, the newest source. |
| `PullMerge.Fill` | src/store/lsm/merge.rs:107-118 | Filling the heap pulls one entry from each source and reports only an error some source holds. |
| `PullMerge.TopIsNewestMin` | src/store/lsm/merge.rs:76-98 | The heap order makes its top the newest head of the least key of all pending runs. |
| `PullMerge.DropDuplicates` | src/store/lsm/merge.rs:121-136 | Every other source loses its entry for the emitted key and nothing else. |
| `PullMerge.Turn` | src/store/lsm/merge.rs:116-154 | One turn takes the newest entry of the least key and advances exactly the sources that hold it. |
| `PullMerge.DecidedStep` | src/store/lsm/merge.rs:116-154 | After each turn every source has been read past the key and at most one entry further. |
| `PullMerge.PullMergeNext` | src/store/lsm/merge.rs:100-154 | The lazy merge returns exactly the first `limit` rows of the materialized merge. It fails exactly when some failing source has no row beyond the key at which it stops, with the error of a failing source no other ends before. A limited pull reads each source to the last key and at most one row further. |
| `CachePolicy.RotateLowersFreq` | src/store/cache.rs:258-283 | Giving the large head a second chance lowers the total frequency, which ends the inner loop. |
| `CachePolicy.EvictSmallStep` | src/store/cache.rs:208-231 | A small-queue turn keeps every entry in one queue, never raises the weight and lowers 2·(small+medium)+large. |
| `CachePolicy.EvictMediumStep` | src/store/cache.rs:233-256 | The same for a medium-queue turn. |
| `CachePolicy.EvictLargeStep` | src/store/cache.rs:258-283 | The same for a whole large-queue turn with all its second chances. |
| `CachePolicy.EvictOneStep` | src/store/cache.rs:285-298 | Any eviction turn makes progress while an entry is left. |
| `CachePolicy.EvictAllFits` | src/store/cache.rs:285-298 | Evicting always reaches the capacity. |
| `CachePolicy.MeasureBound` | src/store/cache.rs:285-298 | The number of turns is at most twice the number of entries, so the iteration backstop is never what stops the loop. |
| `CachePolicy.OperationsKeepSound` | src/store/cache.rs:415-498 | Get, insert and remove keep each entry in exactly one queue and the weight within capacity. |
| `CachePolicy.InsertHolds` | src/store/cache.rs:434-487 | After an insert the key, if resident, holds the new value and weight, no other entry changes its value or weight, nothing appears, and an insert that fits evicts nothing. |
| `CachePolicy.EvictsNoMore` | src/store/cache.rs:285-298 | Eviction stops at the first turn that brings the weight within capacity. |
| `CachePolicy.EvictionSparesProtected` | src/store/cache.rs:208-298 | While cold small entries cover the overshoot, eviction keeps every protected entry. |
| `CachePolicy.FreshInsertSparesProtected` | src/store/cache.rs:434-487 | Inserting a key neither resident nor remembered evicts no entry that sat in medium or large or had positive frequency. |
| `CachePolicy.ScanResistance` | src/store/cache.rs:208-298 | A flood of such inserts, of any length and from any sound state, evicts none of the entries protected when it began. |
| `CachePolicy.DistinctScanResistance` | src/store/cache.rs:208-298 | In particular for every list of distinct keys, all unknown when the flood begins. |
| `CachePolicy.SecondChanceVictim` | src/store/cache.rs:258-283 | A large-queue turn evicts the first entry of least frequency and charges the others one count for each pass. |
| `GhostQueue.TrimExact` | src/store/cache.rs:187-206 | Trimming the ghost queue brings it within its weight and entry caps and keeps the recorded total exact. |
| `GhostQueue.RememberExact` | src/store/cache.rs:187-206 | When a key always has the same weight, remembering it keeps the ghost total exact and within both caps, and a key that fits is remembered. |
| `GhostQueue.ForgetExact` | src/store/cache.rs:434-487 | Readmitting a ghost keeps the total exact. |
| `GhostQueue.PopBooked` | src/store/cache.rs:187-206 | From an exact total, popping one slot keeps it exact if and only if the key is not remembered, the slot carries the remembered weight, or the slot wipes out the only weight left. |
| `GhostQueue.TrimBooked` | src/store/cache.rs:187-206 | From an exact total, trimming keeps it exact if and only if the popped slots charge what the index holds for them, or they charge at least everything and everything is forgotten. |
| `GhostQueue.RememberBooked` | src/store/cache.rs:187-206 | The same, as an if and only if, for remembering an evicted key. |
| `GhostQueue.RememberAgrees` | src/store/cache.rs:187-206 | An eviction brings in a stale slot exactly when an old slot of its key is still queued with another weight. |
| `GhostQueue.AgreeingIsBooked` | src/store/cache.rs:187-206 | While no stale slot is queued the total stays exact. |
| `GhostQueue.ForgetBooked` | src/store/cache.rs:434-487 | Readmitting a ghost keeps an exact total exact, whatever is queued. |
| `GhostQueue.WeightChangeDrifts` | src/store/cache.rs:187-206 | With a changing weight the total drifts: a run from the empty queue that ends empty and still charged. |
| `SstCache.PopLive` | src/store/cache.rs:160-175 | Popping skips stale slots and returns the oldest live key, whose slot was the only live one. |
| `SstCache.S3Inner.ValidIsWellFormed` | src/store/cache.rs:129-142 | Sequence-tagged queues with stale slots stand for three queues of distinct resident keys. |
| `SstCache.S3Inner.RememberGhost` | src/store/cache.rs:187-206 | The ghost structures change as the policy says. |
| `SstCache.S3Inner.EvictFromSmall` | src/store/cache.rs:208-231 | Takes the oldest small key: one touched goes to the back of large with its frequency one lower, another is evicted and remembered as a ghost. Reports progress exactly when the small queue is nonempty. |
| `SstCache.S3Inner.EvictFromMedium` | src/store/cache.rs:233-256 | Takes the oldest medium key: one touched goes to the back of large with its frequency one lower, another is evicted. Reports progress exactly when the medium queue is nonempty. |
| `SstCache.S3Inner.EvictFromLarge` | src/store/cache.rs:258-283 | Refines the policy turn with all second chances. |
| `SstCache.S3Inner.EvictWhileOver` | src/store/cache.rs:285-298 | Ends within capacity in the state the policy gives; the bound on turns never stops it early. |
| `SstCache.S3Inner.Get` | src/store/cache.rs:415-432 | A resident key answers with its value and counts one more hit, to at most three; any other answers nothing and changes nothing. Queues, ghosts, weights and values stay. |
| `SstCache.S3Inner.Insert` | src/store/cache.rs:434-487 | Insert refines the policy: touch, ghost readmission to medium or admission to small, then eviction. The key, if resident, holds the new value and weight, other entries keep theirs, and the eviction count is exact. |
| `SstCache.S3Inner.Remove` | src/store/cache.rs:489-498 | The key leaves its entry, its queue, its weight and the ghosts; every other entry stays. |
| `SstCache.S3Inner.Contains` | src/store/cache.rs:500-505 | Reports residence. |
| `SstCache.Drive` | src/store/cache.rs:415-498 | Over every run of gets, inserts and removals a hit answers with the value inserted last for the key and not removed since. |
| `Codec.DecodeFront` | src/store/lsm/sst.rs:676-710 | A clean record in front of any bytes decodes to itself. |
| `Codec.DecodeTorn` | src/store/lsm/sst.rs:676-710 | Every proper prefix of a clean record is reported as truncated. |
| `Codec.TornRunDecodes` | src/store/lsm/sst.rs:676-710 | For every cut of an encoded run exactly the records wholly before the cut decode. |
| `Codec.RunRoundTrip` | src/store/mod.rs:685-697 | An encoded clean run decodes to itself. |
| `Codec.WordIsLittleEndian` | src/store/lsm/sst.rs:676-710 | Lengths are written and read as four bytes, lowest first. |
| `Codec.FrameIs` | src/store/mod.rs:685-697 | A record is the key length, the key, the value length and the value; a deletion ends in four bytes 255. |
| `Codec.BadKeyStops` | src/store/lsm/sst.rs:676-710 | Decoding a run stops at the first invalid key with the rows before it. |
| `Wal.EncodeOps` | src/store/lsm/store.rs:338-353 | A batch is framed exactly when every length fits its word; otherwise the error is that of the first operation that does not fit, its key before its value. |
| `Wal.DecodeWalRecords` | src/store/lsm/wal.rs:23-58 | The decoding loop returns exactly what repeated single-record decoding yields before a truncation or an invalid key, on every byte string. |
| `Wal.MarkDecodesAsTombstone` | src/store/lsm/wal.rs:41-46 | A value whose length equals the tombstone mark comes back as a deletion. |
| `Wal.BatchRoundTrip` | src/store/lsm/wal.rs:23-58 | An accepted batch replays as itself exactly when no value has the length of the mark. |
| `Bloom.SetKey` | src/store/lsm/sst.rs:84-100 | Setting a key sets exactly the bits its hashes name and keeps the rest. |
| `Bloom.BuildBloom` | src/store/lsm/sst.rs:70-100 | A bit is set exactly when a hash of some key names it, so every key set passes. |
| `Sst.BuildSst` | src/store/lsm/sst.rs:112-212 | The writer succeeds exactly when all lengths fit, and otherwise reports the first entry that does not; the blocks hold the entries in order, the index holds exact offsets, lengths, checksums and end keys, and the filter has ten bits a key and exactly the bits of the keys. Each block fits the block size or holds one record, and the next record would not have fitted. |
| `SstRead.SearchBlock` | src/store/lsm/sst.rs:374-408 | The scan of one block answers with the first row of the key, or the decoding error. |
| `SstRead.GetOption` | src/store/lsm/sst.rs:365-412 | The lookup loop computes the block-by-block answer on every file, corrupt or not. |
| `SstRead.DamageIsReported` | src/store/lsm/sst.rs:344-412 | A lookup that comes to a block outside the file or with a wrong checksum fails for it, past any intact blocks without the key. |
| `SstRead.InvalidKeyIsReported` | src/store/lsm/sst.rs:374-408 | In a block with an invalid key a lookup finds its key in front of it and otherwise fails. |
| `SstRead.FoundIsIntact` | src/store/lsm/sst.rs:344-412 | Whatever a lookup finds stands in a block inside the file with the recorded checksum. |
| `SstRead.BlocksDisjoint` | src/store/lsm/sst.rs:112-212 | Blocks of a built file cover disjoint ascending key ranges. |
| `SstRead.NoFalseNegative` | src/store/lsm/sst.rs:313-341 | A stored key always passes the filter of its file. |
| `SstRead.CleanRoundTrip` | src/store/lsm/sst.rs:365-412 | On a built file of clean entries every key, stored or not, gets the value, tombstone or absence of the map. |
| `SstRead.SstRoundTrip` | src/store/lsm/sst.rs:112-212 | The file answers like the map for every key exactly when no value has the length of the tombstone mark. |
| `SstScan.ScanBlock` | src/store/lsm/sst.rs:572-621 | One block yields its rows in range, and whether a key was invalid. |
| `SstScan.ScanWithTombstones` | src/store/lsm/sst.rs:553-627 | The eager scan returns all rows of the overlapping blocks in range, or the first error. |
| `SstScan.ScanReportsDamage` | src/store/lsm/sst.rs:553-627 | The first damaged block that overlaps the range fails the scan, with its own error. |
| `SstScan.ScanSucceedsWhen` | src/store/lsm/sst.rs:553-627 | A scan succeeds exactly when every overlapping block is intact and holds no invalid key. |
| `SstScan.Scanner.Next` | src/store/lsm/sst.rs:755-801 | The lazy iterator yields the next row in range, then the error if there is one, then nothing. |
| `SstScan.YieldedIs` | src/store/lsm/sst.rs:755-801 | What an iterator yields is its rows in order followed by at most one error. |
| `SstScan.Drain` | src/store/lsm/sst.rs:717-801 | Draining the iterator gives exactly the rows of the eager scan, or a prefix and then the same error, on every file. |
| `SstScan.ScanClean` | src/store/lsm/sst.rs:553-627 | On a built file the scan is the entries in range. |
| `Read.BuiltServes` | src/store/lsm/sst.rs:365-412 | A built file of clean rows answers every lookup and scan like its table. |
| `Read.FirstSlotIsMerged` | src/store/lsm/read.rs:168-202 | Searching newest first is lookup in the merged table. |
| `Read.PointLookup` | src/store/lsm/read.rs:168-202 | The lookup answers with the staged slot, else the newest file that mentions the key, skipping files by range. It fails exactly when the value it found does not resolve, with that error. |
| `RangeRead.FilterRows` | src/store/lsm/read.rs:41-69 | A layer contributes its rows in the window, in key order. |
| `RangeRead.FilterRunsMerged` | src/store/lsm/read.rs:41-69 | Restricting every run restricts the merged table. |
| `RangeRead.SkippedIsEmpty` | src/store/lsm/read.rs:256-267 | A file skipped by its manifest range holds nothing in the window. |
| `RangeRead.ResolveAll` | src/store/lsm/read.rs:276-283 | Dereferencing rows in order succeeds exactly when all resolve, and otherwise reports the first that does not. |
| `RangeRead.ScanManifestNext` | src/store/lsm/read.rs:236-285 | The forward scan returns the first `limit` merged rows of the window, dereferenced; it fails exactly when one of those rows does not resolve, with the error of the first. |
| `RangeRead.ScanManifestPrev` | src/store/lsm/read.rs:247-313 | The backward scan returns the reference scan of the table it merges, with files dereferenced first and layers not. It fails exactly when a file value of the window does not resolve, with the error of the first, newest file first. |
| `LogicalMap.PointIsLogical` | src/store/lsm/read.rs:168-202 | Point lookup is lookup in the logical map of layers over files; it fails exactly when the deciding value does not resolve. |
| `LogicalMap.NextIsScan` | src/store/lsm/read.rs:236-313 | The forward scan is the reference scan of the logical map for every cursor and limit. |
| `LogicalMap.PrevIsScan` | src/store/lsm/read.rs:236-313 | For every limit the backward scan is the reference scan if and only if none of the first `limit` rows of the window is a layer value that dereferencing changes. |
| `LogicalMap.TaggedLayerFails` | src/store/lsm/read.rs:286-313 | One blob pointer in a layer: the backward scan returns the pointer and not what it points to. |
| `Compaction.SelectedTogether` | src/store/lsm/store.rs:1085-1137 | A compaction takes all files that mention a key, or none. |
| `Compaction.CompactionPreservesMap` | src/store/lsm/store.rs:1140-1351 | Replacing the selected files by their merged live rows changes no answer, although tombstones are dropped. |
| `Compaction.CompactionKeepsLayout` | src/store/lsm/store.rs:1140-1351 | Sequence order, level order, covering ranges and one level-1 file for each key all survive a compaction. |
| `CompactionPlan.HullOf` | src/store/lsm/store.rs:1089-1098 | The range spans every level-0 file, and both its ends are ends of such files. |
| `CompactionPlan.OrderByMin` | src/store/lsm/store.rs:1112-1117 | Level-1 files are listed by smallest key, each once. |
| `CompactionPlan.FindSmallestPair` | src/store/lsm/store.rs:1118-1120 | The first neighbouring pair of least total size. |
| `CompactionPlan.PairIsSmallest` | src/store/lsm/store.rs:1118-1120 | The pair found is no larger than any other neighbouring pair, and smaller than all before it. |
| `CompactionPlan.TriggeredIs` | src/store/lsm/store.rs:1053-1084 | No pass runs exactly while there are fewer than four level-0 files of at most 128 MiB in all and fewer than sixteen level-1 files, counted as sets of files. |
| `CompactionPlan.PlannedExactly` | src/store/lsm/store.rs:1085-1137 | A file is taken exactly when it is on level 0, or on level 1 and meets the range of level 0, or, with sixteen or more level-1 files, the range of the smallest pair. |
| `CompactionPlan.PlanCompaction` | src/store/lsm/store.rs:1053-1139 | Runs exactly when the counts of the trigger row are exceeded, and then picks exactly the files the rule names. |
| `CompactionPlan.PlannedSelects` | src/store/lsm/store.rs:1085-1137 | The rule picks every file that may share a key with a level-0 file. |
| `CompactionPlan.PickedRunsMerge` | src/store/lsm/store.rs:1143-1161 | Level-0 scans before level-1 scans, each newest first, merge to the stacked table of the files. |
| `CompactionPlan.MergePicked` | src/store/lsm/store.rs:1140-1170 | The rows written are the live rows of the picked files merged newest first; the other files stay in order. |
| `CompactionPlan.FoldShrinks` | src/store/lsm/store.rs:1107-1129 | With sixteen or more level-1 files at least two files are replaced by one. |
| `CompactionPlan.CompactInner` | src/store/lsm/store.rs:1053-1351 | At rest nothing changes; otherwise the planned files give way to one file of their live rows whose ends are keys it holds, and level 0 is empty. Either way fewer than four level-0 files of at most 128 MiB are left. The pass keeps the layout and the live map, and shortens the list when it folds. |
| `LevelRanges.ApartWhen` | src/store/lsm/store.rs:1107-1129 | From level-1 ranges that are apart, the ranges after the pass are apart if and only if no file left alone has live keys of the files taken on both sides. |
| `LevelRanges.ApartWithoutFold` | src/store/lsm/store.rs:1099-1106 | With fewer than sixteen level-1 files the ranges stay apart. |
| `LevelRanges.FoldedRangesMayMeet` | src/store/lsm/store.rs:1107-1129 | A list whose ranges are apart, and the plan for it, after which they are not, whatever file the pass writes. |
| `Maintenance.EstimateIsEncoded` | src/store/lsm/store.rs:637-660 | The size estimate of a memtable is the number of bytes of its records. |
| `Maintenance.Flush` | src/store/lsm/store.rs:637-760 | A memtable of 32 MiB or more, or any in a forced flush, becomes one new level-0 file with the same entries; a smaller one stays. Either way it is a run of the writer. |
| `Maintenance.CompactFiles` | src/store/lsm/store.rs:1053-1351 | A compaction of the files of the writer is one of its steps or nothing, and leaves level 0 below the trigger. |
| `Maintenance.Maintain` | src/store/lsm/store.rs:578-594 | Maintenance after a write is a run of the writer that changes no read and nothing a restart brings back. With fewer than 200 WALs listed it keeps them and leaves fewer than four level-0 files; with more it empties the memtable and collects every WAL, unless there is no file. |
| `Writer.ApplyMem` | src/store/lsm/store.rs:355-363 | Applying a batch leaves the last operation on each key. |
| `Writer.ReplayWals` | src/store/lsm/wal.rs:85-100 | One pass over WALs that can all be read leaves the last operation on each key. |
| `Reader.ReplayListed` | src/store/lsm/wal.rs:76-128 | The replay of an opening, over any two lists and any files missing: a refresh keeps what the first pass applied, and a WAL missing from the second list fails it. |
| `Writer.DiscardFlushed` | src/store/lsm/store.rs:624-634 | Exactly the entries that still hold the flushed value leave the memtable. |
| `Writer.DrainKeeps` | src/store/lsm/store.rs:519-540 | Making staged writes durable keeps reads and recovery right. |
| `Writer.AppendKeepsRead` | src/store/lsm/store.rs:396-490 | A durable append keeps a key readable as written exactly when the key is not staged with another value at that moment. |
| `Writer.PublishKeeps` | src/store/lsm/store.rs:637-760 | Publishing a flushed snapshot settles every key in the files and changes no read. |
| `Writer.CompactKeeps` | src/store/lsm/store.rs:1053-1351 | Compaction keeps reads and recovery right. |
| `Writer.StepKeepsInv` | src/store/lsm/store.rs:370-660 | Every step keeps the invariant of a key, but for an append that meets the key staged with another value. |
| `Writer.RunsAreDurable` | src/store/lsm/store.rs:370-660 | For every key and every run in which no append meets that key staged with another value, with crashes at any point: reads answer with the acknowledged write under the staged one, and a restart brings back the acknowledged value, or one staged since; exactly when nothing is staged for it. |
| `StageOrder.ReadsAreRightWhen` | src/store/lsm/store.rs:395-535 | In every run at all, a read answers so if and only if the operations issued after the one listed last on the key, but listed before it, leave the key as that one does. |
| `StageOrder.ListedComesBack` | src/store/lsm/store.rs:1840-1861 | In every run a restart brings back the acknowledged value of each key a listed WAL writes. |
| `Takeover.AcknowledgedSurvivesWhen` | src/store/lsm/store.rs:395-490 | In every interleaving of any number of writers a restart, and the reads of each writer, have an acknowledged append of a key if and only if the key was not overtaken by WALs not applied after the one that decides it. |
| `Takeover.OrderlyTakeoversKeep` | src/store/lsm/store.rs:395-490 | While only the writer that loaded last lists, publishes and collects, every acknowledged append survives any number of takeovers. |
| `Takeover.SupersededWritesOnce` | src/store/lsm/store.rs:396-490 | From the moment another writer owns the store, a writer lists or publishes at most once more, and not at all unless it had already checked its epoch. |
| `Takeover.LateAppendSurvivesWhen` | src/store/lsm/store.rs:431-474 | An append listed by a superseded writer after its successor loaded comes back while it is listed; once the successor has published and collected, it survives exactly when it left the key as it was. |
| `Takeover.LateAppendIsLost` | src/store/lsm/store.rs:431-474 | A run in which such an acknowledged append is gone after a restart. |
| `Writer.CollectSafeWhen` | src/store/lsm/store.rs:886-933 | The public WAL collection is safe for a key exactly when the files already answer for it. |
| `Writer.PutAndFlush` | src/store/lsm/store.rs:637-760 | The state after a put and a flush is reachable; it is the start of the next example. |
| `Writer.CollectLosesWrite` | src/store/lsm/store.rs:886-933 | From there a put and a collection lose the acknowledged write at the next restart. |
| `Writer.RacingStage` | src/store/lsm/store.rs:223-241 | Staging a key while a batch on it is written leaves the writer reading one value and a restart bringing back the other. |
| `Storage.EtagInjective` | src/store/storage.rs:209-212 | Distinct writes have distinct, nonempty hexadecimal tags. |
| `Storage.MemStorage.GetOpts` | src/store/storage.rs:217-236 | Missing, not modified, or the stored object, each exactly when the request says so. |
| `Storage.MemStorage.PutOpts` | src/store/storage.rs:238-278 | A conditional write happens exactly when its condition holds, and otherwise changes nothing; a write stores the payload under the next version and leaves every other object. |
| `Storage.MemStorage.Delete` | src/store/storage.rs:280-283 | Only the named object goes. |
| `Storage.UntouchedOrLater` | src/store/storage.rs:238-278 | Along any run of requests an object is the one it was or carries a later version. |
| `Storage.IfMatchMeansUnchanged` | src/store/storage.rs:238-278 | If-Match with a tag read earlier succeeds, after any requests by anyone, exactly when the object is still the one read. |
| `ManifestCas.SwapMeansCurrent` | src/store/lsm/manifest.rs:103-129 | A swap from a held pair succeeds exactly when that pair is what is stored. |
| `ManifestCas.LoadIsCurrent` | src/store/lsm/manifest.rs:200-258 | In every reachable state a read or a poll hands the task the manifest stored at that moment with its tag, or the empty one when nothing is stored. |
| `ManifestCas.AloneSucceeds` | src/store/lsm/manifest.rs:103-258 | From every reachable state a load and a swap that nothing interrupts succeed: the new manifest is stored, logged over the one loaded, and cached. |
| `ManifestCas.LostSwapClears` | src/store/lsm/manifest.rs:103-129 | A lost swap changes neither the store nor the log, clears the cache of its client, and the next load reads the store again. |
| `ManifestCas.ClearedReads` | src/store/lsm/manifest.rs:187-189 | Clearing a cache changes nothing else, and the next load of its client reads the store, fresh or not. |
| `ManifestCas.StepKeepsInv` | src/store/lsm/manifest.rs:200-258 | Every load, publish, clear and swap step keeps cached pairs real and the log a chain. |
| `ManifestCas.RunsAreSafe` | src/store/lsm/manifest.rs:103-258 | In every interleaving of any number of tasks and clients: cached manifests were really stored or are empty, swaps succeed exactly on the current pair, the log ends in what is stored, and stored manifests form a chain of consecutive versions. Every state so reached satisfies the invariant the load and progress rows start from. |
| `Ownership.ClaimMeansCurrent` | src/store/lsm/ownership.rs:88-134 | A claim succeeds exactly when no other claim succeeded since the session looked. |
| `Ownership.StepKeepsInv` | src/store/lsm/ownership.rs:88-134 | Every session step keeps the numbering of grants. |
| `Ownership.EpochsFence` | src/store/lsm/ownership.rs:88-134 | In every interleaving grants get the epochs 1, 2, 3 and so on in swap order, and below the counter limit the stored epoch is held by the last granted session only. |
| `Ownership.SharedWhenSaturated` | src/store/lsm/ownership.rs:109-111 | The last two owners share an epoch exactly when the 64-bit counter is used up. |
| `Ownership.GrantsReachable` | src/store/lsm/ownership.rs:88-134 | Runs reach any number of grants. |
| `Ownership.TwoOwnersReached` | src/store/lsm/ownership.rs:109-111 | A run after which two sessions hold the stored epoch. |
| `Reader.Follower.EnsureReplayed` | src/store/lsm/reader.rs:177-230 | An empty list drops the overlay; otherwise the listed, not yet replayed and still existing WALs are applied in order. |
| `Reader.PollKeepsInv` | src/store/lsm/reader.rs:177-230 | A poll leaves every WAL still listed in the overlay, and drops the overlay on an empty list. |
| `Reader.StepKeepsInv` | src/store/lsm/reader.rs:177-230 | In every step the overlay is the replay, in order, of exactly the WALs read since the last drop. |
| `Replays.WriterDecides` | src/store/lsm/reader.rs:177-230 | WALs applied in any order hold a key exactly when one of them writes it, with the value of the last applied one that does. |
| `Replays.RightWhenNotOvertaken` | src/store/lsm/reader.rs:177-246 | WALs applied in any order, some twice and some not at all, give a key the value of the whole log if and only if those that come after its last applied writer in the log, but were not applied after it, leave it so. |
| `Reader.PollIsRightWhen` | src/store/lsm/reader.rs:239-246 | After a poll a read is right if and only if its key is not in the overlay or was not so overtaken. |
| `Reader.RunsAreRightWhen` | src/store/lsm/reader.rs:177-246 | The same in every run of appends, flushes, collections and polls from any opening, with collections between any two reads. |
| `Reader.OpenedReplays` | src/store/lsm/reader.rs:147-170 | What an opening leaves in the overlay is what its replay returns. |
| `Reader.OpeningIsRightWhen` | src/store/lsm/wal.rs:76-128 | The replayed table over the files is right exactly when no collection between two reads shadows the key; without one it is right. |
| `Reader.StaleOpening` | src/store/lsm/wal.rs:113-124 | The first WAL is read, both are collected, and the refreshed list is empty: the older value shadows the file. |
| `Reader.RunsAreFresh` | src/store/lsm/reader.rs:177-246 | In every run in which no WAL is collected unseen, each read answers with everything appended, and an overlay is dropped only when the files already answer so. |
| `Reader.EscapedWalIsShadowed` | src/store/lsm/reader.rs:177-246 | A run from an opened follower in which a WAL is collected unseen: the overlay keeps answering with the older value. |
| `Mirror.CachedStore.Get` | src/store/lsm/cached.rs:711-724 | A read answers like the core. Before the mirror is warm, a key the core holds is mirrored after the read; no other key enters, and none leaves. |
| `Mirror.CachedStore.Gets` | src/store/lsm/cached.rs:777-790 | A scan is the reference scan of the core, from memory once warmed. |
| `Mirror.CachedStore.PutBytes` | src/store/lsm/cached.rs:766-775 | A write reaches the core and then the mirror; a fenced one changes nothing and poisons the mirror. |
| `Mirror.CachedStore.SetBytes` | src/store/lsm/cached.rs:754-764 | As for a put; the previous value is the mirrored one. |
| `Mirror.CachedStore.Delete` | src/store/lsm/cached.rs:737-752 | Deletes from both, and reports whether the core held the key. |
| `Mirror.CachedStore.Commit` | src/store/lsm/cached.rs:944-978 | A committed transaction reaches the mirror only after the core. An empty one succeeds even when fenced. Success lifts the poison when the manifest cache holds an entry. |
| `Mirror.CachedStore.Collect` | src/store/lsm/store.rs:891-933 | Collecting WALs keeps a warm mirror, or one not being scanned, complete. |
| `Mirror.CachedStore.FinishWarm` | src/store/lsm/cached.rs:630-667 | The finished mirror holds exactly the core keys that were scanned or are in a listed WAL, and is not poisoned. |
| `Mirror.CachedStore.WarmPages` | src/store/lsm/cached.rs:577-626 | The scan ends within `n` pages exactly when at most 255 times `n` keys are left, and otherwise stands where that many pages take it. When it ends, the mirror is the core exactly when the keys already passed were accounted for. |
| `Mirror.CachedStore.Warm` | src/store/lsm/cached.rs:530-550 | A full scan ends with the mirror equal to the core and the poison lifted. |
| `Mirror.CachedStore.WarmStep` | src/store/lsm/cached.rs:564-568 | A driven turn completes exactly when its pages hold what is left, and keeps or completes the account. |
| `Mirror.PageSize` | src/store/lsm/cached.rs:577-626 | A page is short exactly when fewer than 256 keys are left, and a full one leaves all but 255. |
| `Mirror.ScanningEnds` | src/store/lsm/cached.rs:577-626 | How many pages a scan needs, by counting keys. |
| `Mirror.Serve` | src/store/lsm/cached.rs:711-790 | One operation through the handle answers like the durable map alone. |
| `Mirror.Drive` | src/store/lsm/cached.rs:530-790 | Over every run of reads, sets, puts, deletes, commits, rollbacks, warming and collections the answers are those of the durable map, previous values too from the first operation before which it is warm; when that is follows from the operations and the keys. The mirror is a part of the map, and all of it once warm. |
| `Mirror.ServePoisoned` | src/store/lsm/cached.rs:326-353 | A poisoned mirror fails reads and writes. The poison is lifted exactly by a warm-up, an empty commit while the manifest cache holds an entry, or a driven turn whose pages hold what is left to scan. |
| `Mirror.CollectDuringScan` | src/store/lsm/cached.rs:577-667 | A key added behind the cursor whose WAL is collected before the scan ends leaves the warmed mirror short of the core, whatever the turns. |
| `Mirror.WarmMissesKey` | src/store/lsm/cached.rs:577-667 | Such a run from a new handle over any core of 256 keys or more. |
| `Mirror.OneBatchSuffices` | src/store/lsm/cached.rs:577-667 | The run over 256 keys. |
| `Snapshot.RecordsGrow` | src/store/mod.rs:757-784 | More bytes only continue from the undecoded tail. |
| `Snapshot.HeaderIs` | src/store/mod.rs:465-483 | A snapshot starts with the letters OXKV and the version word 1. |
| `Snapshot.RecordDecoder.ValidateHeader` | src/store/mod.rs:729-754 | Wrong magic and wrong version are reported as soon as they are visible; a short header waits. |
| `Snapshot.RecordDecoder.NextRecord` | src/store/mod.rs:757-784 | The next complete record, a wait for more bytes, or an invalid key. |
| `Snapshot.RecordDecoder.Compact` | src/store/mod.rs:788-793 | Dropping consumed bytes keeps the undecoded ones, and the buffer is at most twice as long as they are. |
| `Snapshot.DrainRecords` | src/store/mod.rs:533-536 | All complete records in the buffer, and the tail that stays. |
| `Snapshot.LoadStream` | src/store/mod.rs:511-553 | For every byte string and every way of cutting it into chunks the records, or the reason for rejection, are those of parsing the whole. |
| `Save.EncodeRecord` | src/store/mod.rs:685-697 | A record is framed exactly when its lengths fit. |
| `Save.SaveStream.EncodeBatch` | src/store/mod.rs:626-646 | A page adds each of its rows once, without the one the cursor carried over. |
| `Save.SaveStream.PollNext` | src/store/mod.rs:603-679 | A poll yields the next whole records, at least 16 KiB of them unless the store is exhausted, and less than 16 KiB without the last 256 rows. |
| `Save.CutsJoined` | src/store/mod.rs:573-679 | Chunks cut between records add up to the header and every row so far, in order. |
| `Save.SaveAll` | src/store/mod.rs:573-679 | The stream fails exactly when a record does not fit; otherwise its chunks are the header and every record once, ascending, cut between records. All but the last have at least 16 KiB, and each has less without its last 256 rows. |
| `Save.SnapshotRoundTrip` | src/store/mod.rs:452-553 | Loading a saved store into an empty one gives it back. |
| `Save.LoadsWhenValid` | src/store/mod.rs:757-784 | Written records load exactly when all their keys are valid UTF-8; one invalid key rejects the load, whatever follows. |
| `Save.TornIsRejected` | src/store/mod.rs:540-553 | A load that ends inside a record is rejected as truncated. |
| `Paging.GetsBytes` | src/store/btree.rs:271-354 | The B-tree scan is the reference scan. |
| `Paging.WindowFrom` | src/store/mod.rs:873-935 | Restarting a scan at the key of its i-th row gives its rows from the i-th on. |
| `Paging.Gets` | src/store/mod.rs:873-935 | The filtered scan returns the first `limit` matches after the start key, over as many pages as it takes, in both directions, and ends. |
| `Paging.NoStartIsWhole` | src/store/mod.rs:873-935 | Without a start key nothing is skipped. |
| `Paging.StartIsSkipped` | src/store/mod.rs:912-916 | For a positive limit it agrees with an inclusive scan exactly when the start is not a matching key of the window. |
| `Paging.StartKeyIsMissed` | src/store/mod.rs:912-916 | One matching key, asked for from that key on: nothing, where the inclusive scan has it. |
| `Overlay.MergeSides` | src/store/btree.rs:472-507 | The lazy two-way merge is a prefix of the whole merge. |
| `Overlay.BuildOverlay` | src/store/btree.rs:371-545 | The transaction scan is the reference scan of the overlaid map. |
| `Overlay.MergeStaged` | src/store/lsm/cached.rs:815-842 | Collecting, sorting and truncating over the unlimited base scan is the same reference scan. |
| `Overlay.OverlaidAgain` | src/store/lsm/cached.rs:920-938 | A base that already holds the staged writes scans the same. |
| `Overlay.ApplyTable` | src/store/btree.rs:245-258 | Applying staged writes one by one gives the overlaid map. |
| `ChangeLog.CollapseKeepsEnds` | src/store/btree.rs:215-226 | A transaction publishes one event for each touched key, from the value its first write saw to the value of its last. |
| `ChangeLog.PreTransactionValue` | src/store/btree.rs:168-226 | However other commits interleave, an event on a key they did not touch carries the value from before the transaction. |
| `ChangeLog.CommitFolds` | src/store/btree.rs:230-264 | Folding the staged events is applying the overlay. |
| `ChangeLog.BTreeStore.Notify` | src/store/hooks.rs:406-424 | Events are numbered from zero without gaps, and the history is the last 1024 of them. |
| `ChangeLog.BTreeStore.SetBytes` | src/store/btree.rs:57-77 | One event with the previous value. |
| `ChangeLog.BTreeStore.Delete` | src/store/btree.rs:31-55 | One event exactly when the key existed. |
| `ChangeLog.BTreeStore.TxSet` | src/store/btree.rs:184-199 | Answers with what the transaction saw, its own earlier writes first, and from then on it sees the new value and everything else as before; the store stays. |
| `ChangeLog.BTreeStore.TxDelete` | src/store/btree.rs:168-182 | Answers whether the transaction saw the key. If so it sees the key no more and everything else as before; if not, nothing is staged. |
| `ChangeLog.ReadsOwnWrites` | src/store/btree.rs:152-199 | However other commits interleave, a transaction reads the last value it gave a key, nothing after a delete, and the store as it is now for a key it did not write. |
| `ChangeLog.ReadYourWrites` | src/store/btree.rs:152-199 | Set, set and delete of one key in one transaction: the second set answers with the first value, the delete finds the key, and after the commit it is gone. |
| `ChangeLog.BTreeStore.Commit` | src/store/btree.rs:230-264 | The overlay reaches the map and the staged events the log, in order. |
| `ChangeLog.BTreeStore.EventsSince` | src/store/hooks.rs:574-600 | Refused exactly when an event after `s` is no longer among the last 1024; otherwise all events after `s`. |
| `ChangeLog.FollowerCatchesUp` | src/store/hooks.rs:574-600 | The events after `s` bring a follower at `s` up to date. |
| `ChangeLog.PositionThatMissesNothing` | src/store/hooks.rs:574-614 | A reply misses nothing exactly when asked for with the number of an event already held; the published current sequence is one too many. |
| `ChangeLog.NextEventIsMissed` | src/store/hooks.rs:574-614 | From any state, asking from the current sequence on misses the next event. |
| `ChangeLog.FirstEventIsMissed` | src/store/hooks.rs:574-614 | After the first event of a store no position is answered with it. |
| `ChangeLog.Drive` | src/store/btree.rs:31-264 | Over every run of writes and interleaved transactions the log folds to the map, and a retained suffix updates a follower. |
| `ChangeRace.MoveKeepsInv` | src/store/hooks.rs:406-424 | With map change, number and history entry as separate steps of racing writers, the map stays the fold of the changes, and no event is lost on its way to the history. |
| `ChangeRace.FoldIsRightWhen` | src/store/hooks.rs:406-424 | In every run of racing writers the history folds to the map on a key if and only if the changes after the one entered last, but not entered after it, leave the key so. |
| `ChangeRace.InOrderFolds` | src/store/hooks.rs:406-424 | When all events have entered, in write order on each key, the history folds to the map. |
| `ChangeRace.RacingWritersDisagree` | src/store/btree.rs:57-77 | Two racing sets of one key after which the history folds to the first and the map holds the second. |
| `ChangeRace.ReplyIsWholeWhen` | src/store/hooks.rs:574-600 | In every run a reply holds all entered events above its position exactly when none of them left the window; a refusal depends on the number at the front alone. |
| `ChangeRace.InNumberOrder` | src/store/hooks.rs:574-600 | When events enter by number a reply is refused exactly when one of its events was lost. |
| `ChangeRace.SilentGap` | src/store/hooks.rs:574-600 | A run in which an event was lost and the reply neither holds it nor is refused. |
| `Calendar.CountIs` | src/query/json.rs:238-248 | The era arithmetic is 365 days a year plus the leap days, for every year including negative ones. |
| `Calendar.EpochIsZero` | src/query/json.rs:238-248 | 1970-01-01 is day zero. |
| `Calendar.DaysAdvance` | src/query/json.rs:238-248 | The count grows by exactly one from each real Gregorian date to the next, in every year. |
| `Calendar.DaysOrder` | src/query/json.rs:238-248 | The count orders real dates as the calendar does and is injective on them. |
| `Calendar.RollsForward` | src/query/json.rs:270-277 | An impossible day of the month counts into the next month. |
| `Calendar.InsideMeansNamed` | src/query/json.rs:250-267 | An instant lies in the interval of a year, month or day literal exactly when the named fields agree. |
| `Calendar.DateOf` | src/query/json.rs:238-248 | Every integer is the day number of a real date. |
| `Calendar.UnitsTile` | src/query/json.rs:250-267 | Every second lies in exactly one year, one month and one day. |
| `DateText.SkipFraction` | src/query/json.rs:356-361 | The index walk over a fraction ends at the first byte that is no digit. |
| `DateText.TimeZoneMeans` | src/query/json.rs:332-383 | A suffix is accepted exactly when it is a written time: one of three separators, hours and minutes, optional seconds, an optional fraction of any length, and no zone, `Z` or an offset. |
| `DateText.ParseTimeZone` | src/query/json.rs:332-383 | The parser accepts exactly the written times and returns their second and precision; a fraction counts for nothing. |
| `DateText.YmdRoundTrip` | src/query/json.rs:302-326 | A written date, cut to a year, a month or a day, parses to its fields, impossible days too. |
| `DateText.LiteralAccepted` | src/query/json.rs:278-383 | A text is a date literal exactly when it is written in one of the shapes, and then has the meaning of that shape. |
| `DateText.LiteralNamed` | src/query/json.rs:278-297 | A literal of reduced precision parses to the unit it names. |
| `DateText.InstantRoundTrip` | src/query/json.rs:278-383 | A date followed by a written time of any of these shapes parses to its UTC second and precision. |
| `DateText.TermMatchesPrefix` | src/query/json.rs:404-415 | A month or day term matches a date leaf exactly when its text is a prefix of the leaf. |
| `DateMatch.UnitBounds` | src/query/json.rs:250-267 | With years, months, days, minutes and seconds numbered in order, a second lies before, in or after the unit of a literal by number. |
| `DateMatch.TermMatches` | src/query/json.rs:404-415 | For every written literal but a bare year, and every leaf: the term matches exactly when the leaf is a literal whose UTC start has the unit number of the term. |
| `DateMatch.LiteralMatches` | src/query/json.rs:404-415 | The same for written leaves, in terms of what both literals mean. |
| `DateMatch.TermMatchesUtc` | src/query/json.rs:554-560 | A month or day term matches a timestamp of any shape and offset exactly when its UTC date is in the named unit; an impossible day is the one it rolls to. |
| `DateMatch.TermMatchesInstant` | src/query/json.rs:554-560 | For real dates without an offset that is when the term is a prefix of the timestamp. |
| `DateMatch.ImpossibleDayMoves` | src/query/json.rs:270-277 | February 30 is not matched by its own month but by March, in every year. |
| `DateText.YearIsNoTerm` | src/query/json.rs:203-208 | A bare year stays on the text path. |
| `DateText.TermAccepted` | src/query/json.rs:404-415 | A term takes the date path exactly when it is a written date literal that is not a bare year. |
| `DateText.RangeAccepted` | src/query/json.rs:393-402 | A range takes the date path exactly when both its bounds are written date literals. |
| `DateMatch.RangeMatches` | src/query/json.rs:393-402 | For all written bounds and every leaf: an inclusive range takes exactly the literals from the unit of its first bound to that of its last, an exclusive one those strictly between. |
| `DateText.DateRangeMatches` | src/query/json.rs:393-402 | On whole dates this is the order of the calendar. |

## Left out

- CRC32, SHA-256, UTF-8 validation and the Bloom hash are arbitrary functions.
- JSON: the SST footer and the manifest and ownership objects are values, so the SST trailer bytes, their parsing and the whole-file checksum are not modelled.
- Blob objects: dereferencing is an arbitrary function that may fail; compaction takes tables already dereferenced, and spilling large values to blobs is not modelled.
- Concurrency: each I/O call and each short lock is one step in `ManifestCas` and `Ownership`, each lock and each swap in `ChangeRace` and `Takeover`, and each read of an opening or a poll may find its file gone; elsewhere each operation is one step, and staging may fall between any two writer steps. Retries and backoff are not modelled.
- PullMerge.PullMergeNext: the binary heap is represented by the set of its entries.
- SstCache.S3Inner.Insert: machine words have 64 bits, capacities within 4 GiB of the largest word are excluded, so saturating sums never saturate, and the slot counter does not wrap.
- GhostQueue.RememberBooked: sums that exceed the largest machine word are excluded; capacities as above never reach them.
- SST offsets: block offsets and lengths are unbounded, so overflow of a machine word is not modelled.
- ManifestCas.RunsAreSafe: the caches and tasks are values in a transition system, not objects updated in place; time enters as a free choice of freshness.
- Storage.MemStorage.PutOpts: the write counter is unbounded, and versions are numbers where the code compares their decimal text.
- Writer.RunsAreDurable: for a key that an append meets staged with another value the result is false (`Writer.RacingStage`), so such runs are excluded for that key (`Writer.CalmRun`); `StageOrder.ReadsAreRightWhen` covers all runs.
- Writer.StepKeepsInv: one writer; the group-commit queue and orphan collection are not modelled, and a swap that succeeds but is reported as failed is excluded.
- Maintenance.Maintain: a flush, compaction or collection that fails, which the code logs and passes over, is not modelled.
- Takeover.AcknowledgedSurvivesWhen: staged writes and compaction are not modelled, a writer loads its list without a refresh, and two writers do not draw the same file number.
- Reader.RunsAreRightWhen: a poll sees the current list, not one cached for up to a second.
- Mirror.Drive: one handle of the sole writer; refresh after a takeover, concurrent fills and writes that go around the handle are not modelled.
- Snapshot.LoadStream: a chunk source that fails by itself is not modelled.
- ChangeLog.Drive: validators, observers, scopes and watcher channels are not modelled, and each operation publishes before the next starts; `ChangeRace` drops that.
- ChangeRace.FoldIsRightWhen: transactions enter as the changes they commit.
- Query text, field paths, boolean groups, regular expressions, globs, fuzzy terms and number ranges: a match is an arbitrary predicate, except for dates.
- The other storage backends, the storage probe, hit and miss counters, telemetry, clocks and time limits, and the browser bindings: foreign calls, or easy members.
