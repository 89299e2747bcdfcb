# T4 in Dafny

T4 is a replicated multi-version key-value store. A leader gives every write a revision and a
sequence number, commits batches to a write-ahead log, streams them to followers, and archives log
segments and checkpoints in object storage, from which any node can recover. This project models
that logic and proves what it promises, over all inputs, all interleavings and all reachable states.

`dafny verify dfyconfig.toml` checks everything. The files follow the system:

- `Entries`, `Mvcc`: log entries, and the plain map that applying them one at a time produces. All
  other components are measured against this serial state.
- `StoreState`, `StoreProofs`, `StoreReads`, `StoreLists`, `Store`, `Batching`, `Leftovers`,
  `RecoverBatches`, `Reopen`: the Pebble-backed store as a sorted change log plus an index, written in batches and
  compacted; reads are proved to be reads of the serial state, however the entries were batched, and
  recovery over what an older term left is compared with never having had it.
- `Watch`, `Watchers`, `Wakeup`: log scans, the watch loop beside the applying goroutine, and the
  notify channel that wakes waiters.
- `Serial`, `Requests`, `Pipeline`, `Node`, `InFlight`, `Aborts`, `AbortedBatches`: what each client
  request decides when executed alone, and what that does to the state; the leader's optimistic overlay and commit loop as a step machine that refines it; the
  methods that take those steps; and what is left of the refinement when callers abandon a batch.
- `Replication`, `Peer`, `Cluster`, `ClusterProofs`, `CatchUp`, `Progress`, `Quorum`: the stream protocol,
  its two ends as they change state, runs of one leader with any number of followers, and ACKs.
- `ReadIndex`, `JointRuns`: the pipeline and the replication of its log run together, and what a
  follower reads after waiting for the leader's answer.
- `Election`: the lock object under interleaved reads and conditional PUTs.
- `WalSegments`, `WalArchive`, `WalGc`, `ObjectKeys`: segment rotation, the archive and the merge of
  terms on recovery, what its garbage collection may change, and the names everything is listed by.
- `Checkpoint`, `Retention`, `CheckpointStore`, `Branches`: checkpoints that share SST files, pins,
  collection, what is left and what it restores to, and a branch whose checkpoints refer to the store it was forked from.
- `Bytes`, `RecordCodec`, `EntryCodec`, `Formats`: byte formats, format guessing and crash truncation.
- `Lex`, `Ranges`, `EtcdRange`, `EtcdWire`: key order, prefix ranges, the etcd Range call and its answers.

Imperative code is modelled by classes and loops whose contracts name a specification function; the
theorems are about those functions. Step machines take arbitrary sequences of steps, and a step that
is not possible changes nothing, so a statement about every step sequence is one about every run.

Some promises hold only under conditions that the code does not check. Each is kept as the code has
it and stated with its condition:

- Historical reads are right from the highest compaction target on, but the watermark is the last
  target. Targets that never go down keep the two equal (`Batching.AscendingTargetsSuffice`); lowering
  it re-admits wrong reads exactly when a put was replaced between the two targets
  (`Batching.LoweredWatermarkExact`).
- A compaction target above the current revision makes the current revision unreadable by number, and
  nothing else does (`Batching.CurrentReadableIff`).
- Recovery over a leftover of an older term undoes it exactly when what the leftover wrote is written
  again or was not live before, and it is no transaction replaced by a single write
  (`Leftovers.RecoverCallReplacesIff`).
- Opening a store's files takes the last sequence from the last call, so an earlier, higher one is
  forgotten (`Reopen.ReopenIff`).
- A transaction that deletes an absent key and puts it leaves it live (`Requests.DeletedAbsentIff`).
- In one recovery call, clearing for a later entry can take away what an earlier one of the same call
  wrote (`RecoverBatches.LaterCleanupLosesPut`; the exact condition is `RecoverBatches.RecoverBatchIff`).
- A compaction that overtakes a watcher hides exactly the events it has superseded
  (`Watch.CompactionHidesExactly`).
- A plain delete of a live empty key is assigned a revision but never logged
  (`Pipeline.TruthfulExactlyWithoutLeak`), and a single write of the empty key stays in the overlay when
  its batch is abandoned (`AbortedBatches.AbortKeepsIff`).
- Requests that were decided on an abandoned batch stay; the log is a one-at-a-time log again when none of
  them read what the batch wrote, and for puts only then (`AbortedBatches.AbortOfPutsIff`).
- Collection of the archive judges a segment by the name of the next one. Recovery is unchanged exactly
  when no missed entry is lost (`WalGc.GcPreservesRecoveryIff`), which packed segments guarantee; segments
  of one term that overlap, as when several nodes upload theirs, need not
  (`WalGc.OverlapChangesRecovery`).
- `Open` and `SealAndFlush` trust their caller for a segment's name. A WAL opened under a name below its
  first sequence, as after a resync whose next revision is behind its next sequence, uploads overlapping
  segments (`WalSegments.PackedIffNotNamedLow`, `WalSegments.Wal.SealAndFlush`).
- The old record format is told apart safely up to an exact bound, which is one version smaller than a
  span of 2^32 suggests (`RecordCodec.OldDecodesIff`).
- A manifest outside the newest `keep` checkpoints can lose an SST (`Checkpoint.OldManifestBreaksIff`),
  and a branch what it inherited from unpinned checkpoints (`Branches.CollectLeavesBranchIff`).
- A follower keeps its stream over the first marker exactly when it did not join in the middle of a
  batch (`CatchUp.SurvivesIffBetweenBatches`).
- Terms with more than ten digits are listed out of order (`ObjectKeys.TermsListInOrderIff`), and the
  term after the last 64-bit one wraps (`Election.NewTermAbove`).

Stated as preconditions: the log the leader starts a joint run with carries consecutive sequences and its
followers agree with it; election runs leave out the unconditional `Touch` and `Release`. Abandoned
batches are part of the runs of `AbortedBatches` and of the replication runs, not of those of `Pipeline`
and `JointRuns`.

## Model

| member | source | states |
|---|---|---|
| `WalArchive.MinFirst` | wal_replay.go:265-271 | the map it builds gives, for every term that has a segment, the smallest first sequence among that term's segments, and has no other term |
| `WalArchive.TermCutoffs` | wal_replay.go:262-283 | the cutoff of a term is the smallest first sequence of any higher term, or the 64-bit maximum when there is none |
| `WalArchive.CutoffMeaning` | wal_replay.go:262-283 | a sequence lies below a term's cutoff if and only if no higher term has a segment starting at or below it |
| `WalArchive.Collect` | wal_replay.go:187-217 | the loops over listed segments gather exactly the entries after afterSeq that pass their term's cutoff, in listing order |
| `WalArchive.CollectedIffHighestTerm` | wal_replay.go:187-217 | in any archive whose segments hold nothing below their name, an entry after afterSeq is gathered if and only if its segment's term is the highest that has a segment starting at or below the entry's sequence |
| `WalArchive.DedupeSorted` | wal_replay.go:231-240 | the in-place pass over the sorted entries computes the deduplicated list |
| `WalArchive.DedupeIsMerge` | wal_replay.go:225-240 | the result is strictly ascending, has every gathered sequence once, and at each holds an entry of the highest gathered term |
| `WalArchive.ReplayRemote` | wal_replay.go:170-255 | whatever it returns is a recovery of the archive as defined independently of the loops: a merge when contiguous, otherwise the first gap and nothing applied |
| `WalArchive.ReplaySucceedsIffNoHoles` | wal_replay.go:242-255 | recovery succeeds if and only if the gathered sequences have no hole above afterSeq, and then yields afterSeq+1, afterSeq+2, ... with one entry each |
| `WalArchive.RefusalNamesFirstHole` | wal_replay.go:242-252 | a refusal names the first missing sequence, below which all are there, and the next one there is |
| `WalArchive.ReplayDeterministic` | wal_replay.go:170-255 | two recoveries of one archive agree, so ties in sorting do not matter when segments of one term do not conflict |
| `WalArchive.SelectDeletable` | internal/wal/gc.go:33-46 | the loop selects exactly the listed segments whose successor starts at or below checkpointSeq + 1 |
| `WalArchive.Archive.GcSegments` | internal/wal/gc.go:23-57 | deletes that selection from the archive and nothing else, and returns its size |
| `WalGc.KeptFrom` | internal/wal/gc.go:33-57 | from any listed segment that starts at or below checkpointSeq + 1, following the deleted ones to the right reaches a kept one, of a term at least as high and again starting at or below checkpointSeq + 1 |
| `WalGc.GcPreservesRecoveryIff` | internal/wal/gc.go:23-57 | for any archive, any checkpointSeq and a collection that deletes any part of its selection, recovery from every afterSeq at or above checkpointSeq gives what it gave before, success or failure, if and only if no lost entry is missed: one whose sequence is gone altogether, or which a recovery from just below it would have applied |
| `WalGc.LostMeans` | internal/wal/gc.go:33-57 | an entry is lost if and only if it is above checkpointSeq, a deleted segment holds it where no higher term supersedes it, and no kept segment holds it so |
| `WalGc.GcPreservesRecovery` | internal/wal/gc.go:23-57 | so recovery never changes when no segment holds a sequence at or beyond the start of a later segment of its term |
| `WalGc.RunRecoversIff` | leader.go:564-592 | over every run of uploads, overlapping or of a key collected before, and of collections, recovery from the highest checkpoint used so far is that of everything ever uploaded if and only if no lost entry is missed |
| `WalGc.GcNeverChangesRecovery` | internal/wal/gc.go:23-57 | so it is in every run whose uploads together are packed |
| `WalGc.OverlapChangesRecovery` | leader.go:564-592 | uploads of one term named 1, 2 and 3 that hold sequences 1-2, 2-4 and 3, then a collection at 2, are such a run in which recovery does change, whatever the entries are |
| `ObjectKeys.KeyRoundTrip` | wal_replay.go:285-295 | parsing an archived segment's name gives back its term and first sequence |
| `ObjectKeys.KeyOrder` | internal/wal/wal.go:599-601 | for terms of at most ten digits the byte order of names is the order of (term, first sequence) |
| `ObjectKeys.TermsListInOrderIff` | internal/wal/wal.go:599-601 | listing order is term order for all terms up to a highest one if and only if that one is below 10^10 |
| `WalSegments.Wal.AppendBatch` | internal/wal/wal.go:279-346 | any batch, whatever its sequences, is accepted whole or, exactly when a synchronous upload fails, the WAL is as it was; segments named by counting entries stay so; without synchronous upload the segment is sealed and a new one opened exactly when its bytes reach the size limit |
| `WalSegments.Wal.AfterSync` | internal/wal/wal.go:298-380 | rotation by upload, or by size exactly when the segment is full, seals the segment and keeps the entries and the next number; a failed upload truncates the segment to what it was before the batch |
| `WalSegments.Wal.RotateByAge` | internal/wal/wal.go:383-424 | an age tick changes neither the accepted entries nor the next number and leaves the active segment empty |
| `WalSegments.Wal.SealAndFlush` | internal/wal/wal.go:559-579 | segments are still named by counting if and only if they were and the caller names the next one by the next number; an empty segment is left alone |
| `WalSegments.WalChainIff` | internal/wal/wal.go:279-380 | the segments, concatenated, are the accepted batches; named by counting, each is named by its first sequence and holds the next ones, if and only if the accepted entries count up from the name the WAL was opened under |
| `WalSegments.OpenedRightIff` | follower.go:329-337 | so a WAL of entries without a gap is such a chain if and only if it was opened under the sequence of its first entry |
| `WalSegments.PackedIffNotNamedLow` | follower.go:329-337 | and what a WAL of at least two segments uploads is packed if and only if it was not opened under a lower name |
| `WalSegments.ChainPartitions` | internal/wal/wal.go:279-380 | every sequence of the log lies in exactly one segment, at its offset from that segment's name |
| `WalSegments.ChainWellPacked` | internal/wal/wal.go:279-380 | segments rotated this way satisfy the packing condition that collection and replay rely on |
| `EntryCodec.ReadBlockBack` | internal/wal/entry.go:221-275 | a block of fixed fields, lengths, key and value reads back exactly, with anything behind it |
| `EntryCodec.PayloadBack` | internal/wal/entry.go:221-275 | every entry whose lengths fit 32 bits decodes to itself with its ID set to its sequence |
| `EntryCodec.OldPayloadBack` | internal/wal/entry.go:242-275 | an entry of a version 1 segment decodes to what was written, without ID and version, so that its revision is its sequence |
| `EntryCodec.ReadAll` | internal/wal/segment.go:248-260 | the loop returns the entries before the first end or error, and says which it was |
| `EntryCodec.CutGivesPrefix` | internal/wal/entry.go:194-219 | for any entries and any cut of their frames, reading gives exactly the entries whose frames lie wholly before the cut, without error |
| `EntryCodec.WholeMeans` | internal/wal/entry.go:194-219 | the number of whole frames is the largest whose bytes fit before the cut |
| `EntryCodec.DamageIsReported` | internal/wal/entry.go:194-219 | behind any good frames, a whole frame with a wrong checksum or no entry in it is an error, reported after the entries before it |
| `EntryCodec.CutSegment` | internal/wal/segment.go:222-260 | a segment cut anywhere after its header opens with its term and first sequence and reads as that prefix |
| `EntryCodec.DecodeTxnOps` | internal/wal/entry.go:102-145 | the loop decodes count writes or fails where the recursive reader fails |
| `EntryCodec.TxnRoundTrip` | internal/wal/entry.go:75-145 | the writes of a transaction decode to what was encoded |
| `Formats.OldTxnRoundTrip` | internal/wal/entry.go:102-145 | transactions written without versions decode to what was written, with version 0 |
| `Formats.TxnOpLayout` | internal/wal/entry.go:75-98 | each field of a transaction's write lies at its stated position, most significant byte first |
| `Formats.EntryLayout` | internal/wal/entry.go:146-240 | so does each field of an entry |
| `Formats.SegmentLayout` | internal/wal/segment.go:12-20 | and of a segment's header |
| `EntryCodec.CrashRecoversPrefix` | internal/wal/entry.go:75-275 | from log to bytes through a crash and back: exactly the entries written whole come back, transactions unpacked, IDs normalised |
| `RecordCodec.RoundTripIff` | internal/store/keys.go:131-196 | a record with a version decodes to itself if and only if its version looks valid for its revisions |
| `Formats.RowKeepsWrite` | internal/store/store.go:372-439 | a log row loses nothing of the write it stands for, except that no version counts as the first |
| `Formats.OldRowVersion` | internal/store/store.go:1063-1072 | a row from before versions is read with its fields and as the first version of its key |
| `Formats.RecordLayout` | internal/store/keys.go:131-150 | each field of a log row lies at its stated position, with the flags in the low two bits of the first byte |
| `RecordCodec.WrittenRoundTrips` | internal/store/keys.go:131-196 | every write within the version bound decodes to itself |
| `RecordCodec.LeaderRowsRoundTrip` | internal/store/keys.go:131-196 | every row of every entry that a leader decides on, from any bounded log and any requests, decodes to what was written |
| `RecordCodec.OldRoundTripIff` | internal/store/keys.go:151-182 | a record in the old format decodes to itself if and only if its bytes cannot be read as a new one |
| `RecordCodec.OldDecodesIff` | internal/store/keys.go:151-196 | for given revisions all old records with a non-empty key decode as old if and only if the largest version they leave room for is below 2^32 |
| `RecordCodec.SpanJustUnderMisreads` | internal/store/keys.go:184-196 | a revision span of 2^32 - 2 already leaves room, so a span under 2^32 alone is not enough |
| `RecordCodec.EmptyKeyMisread` | internal/store/keys.go:151-196 | old first writes of the empty key whose value begins with the number 1 and an in-range length are misread |
| `RecordCodec.LogKeyOrder` | internal/store/keys.go:61-77 | log keys sort as bytes exactly as (revision, sub-index) sorts |
| `Ranges.ComputeUpperBound` | internal/store/keys.go:102-112 | the in-place increment with carry computes the least key above all keys with the prefix, or none |
| `Ranges.PrefixIffInRange` | internal/store/keys.go:91-112 | a key has prefix p if and only if it is at or above p and below the bound |
| `StoreLists.BoundsSelect` | internal/store/store.go:783-792 | the index bounds select exactly the keys with the prefix at or above fromKey |
| `Store.Store.Open` | internal/store/store.go:145-198 | opens the files of an earlier store with the counters its meta keys tell |
| `Reopen.ReopenIff` | internal/store/store.go:145-198 | after any run of Apply and Recover calls, opening the files gives the same contents, current revision and watermark; and the store as it was if and only if its last sequence is that of the last call or the current revision |
| `Reopen.ReopenAscendingIff` | internal/store/store.go:277-305 | with sequences that never go down, that is exactly when no revision is above the last sequence |
| `Store.Store.Apply` | internal/store/store.go:236-303 | the new contents are those of the batch specification, and if the store represented its history and the entries continue it validly, it represents the history followed by them |
| `Store.Store.Recover` | internal/store/store.go:309-370 | the same for startup replay, on any store and any entries |
| `Leftovers.RecoverCallReplacesIff` | internal/store/store.go:326-360 | recovering an entry over one that an older term left at its revision gives the rows and index of applying it in that place, if and only if every key the leftover wrote is written again or was not live before, and no non-empty transaction is replaced by a single write |
| `Leftovers.NoDanglingPointer` | internal/store/store.go:326-360 | whatever the leftover and the recovered entry are, no index entry at that revision points at a missing row |
| `Leftovers.SurvivorMisread` | internal/store/store.go:348-360 | a key of a leftover transaction that a single write of another key replaced is read with that write's value |
| `RecoverBatches.RecoverBatchIff` | internal/store/store.go:309-370 | recovering any data entries in one call over any store gives the rows that applying them to a second store would give if and only if every row the call does not write is as wanted or wanted absent and deleted, and no deletion follows the last write of a row; likewise for the index, key by key |
| `RecoverBatches.RecoverHolds` | internal/store/store.go:309-370 | so over any number of leftovers the result holds the history with the entries in their place when everything is so restored |
| `RecoverBatches.LaterCleanupLosesPut` | internal/store/store.go:348-360 | from every store: over a leftover put of a first key at the revision of a second entry, recovering puts of the two keys in one call loses the first, since clearing for the second comes after it in the batch |
| `Store.Store.CommitWrites` | internal/store/store.go:277-303 | writes, revision and sequence become visible together and never go back |
| `Store.Store.ApplyEntryWrites` | internal/store/store.go:372-439 | the writes of a data entry: one row and one index update for each of its operations |
| `Store.Store.ApplyCompact` | internal/store/store.go:441-484 | adds the deletions of superseded committed rows below the target and sets the watermark |
| `Batching.CompactionRemovesExactly` | internal/store/store.go:441-484 | a compaction removes a row if and only if it lies from the watermark on and below the target and the same key has a later row at or below the target; it changes no other row, no index entry and no revision |
| `Store.Store.HasLaterRevision` | internal/store/store.go:486-508 | true exactly when another row of the key lies in the given range |
| `Store.Store.Get` | internal/store/store.go:582-588 | the value of a key is its value after applying the history one entry at a time |
| `Store.Store.GetLogEntry` | internal/store/store.go:664-697 | finds the row of a key at a revision, single or inside a transaction |
| `Store.Store.GetAt` | internal/store/store.go:591-636 | compacted and future revisions are errors; every other revision is answered with what the stored rows tell at it, and that is the serial state from the highest compaction target on |
| `Store.Store.ListRange` | internal/store/store.go:740-781 | a permitted listing is the sorted listing, by prefix, lower bound and limit, of what the stored rows tell at the revision, and so of the serial state from the highest compaction target on |
| `Store.Store.ListCurrent` | internal/store/store.go:794-820 | the index-based listing is the same listing of the current serial state |
| `Store.Store.CountRange` | internal/store/store.go:828-856 | counts what the listing would return, at every permitted revision |
| `StoreProofs.CompactDeletesCommit` | internal/store/store.go:441-484 | committing a compaction's deletions removes exactly the scanned rows that have a later row, and nothing from the index |
| `StoreProofs.ApplyRepresents` | internal/store/store.go:236-370 | one call of Apply or Recover with any valid entries keeps the store a representation of its history |
| `StoreProofs.RunRepresents` | internal/store/store.go:236-370 | after any sequence of calls the store represents the concatenated entries: only superseded rows are missing and the index names exactly the live keys |
| `StoreReads.ReadAtIsSerial` | internal/store/store.go:700-725 | at every revision from the highest compaction target on, the newest row at or below it gives the serial state |
| `StoreReads.LogEntryIsSerial` | internal/store/store.go:664-697 | the row the index points to has survived every compaction and holds the current value |
| `StoreLists.StoredLookup` | internal/store/store.go:700-781 | at every revision a point read and the fold behind listings tell the same of every key, whatever compaction has deleted |
| `StoreLists.LatestIsSerial` | internal/store/store.go:740-781 | folding the log up to a permitted revision gives the serial state restricted to the prefix |
| `Batching.BatchingInvisible` | internal/store/store.go:236-370 | cutting one entry sequence into calls in any two ways gives the same index, current and compact revision and last sequence |
| `Batching.BatchingInvisibleAtHead` | internal/store/store.go:582-588 | and the same current value of every key |
| `Batching.BatchingInvisibleInHistory` | internal/store/store.go:700-781 | and the same historical reads and log folds at every permitted revision |
| `Batching.StoredRowsDependOnBatching` | internal/store/store.go:441-484 | although the stored rows may differ: a compaction batched with the writes it covers leaves a row that it deletes when applied apart |
| `Batching.GetIsGetAtCurrent` | internal/store/store.go:582-600 | in every represented state the rows at the current revision tell the current value, wherever compaction targets lie |
| `Batching.CurrentReadableIff` | internal/store/store.go:582-636 | asking for the current revision by number answers as asking for the current value if and only if the watermark is not above it |
| `Batching.CompactedAhead` | internal/store/store.go:620-636 | a run in which it is: one put and a compaction to 5 |
| `Batching.CompactionPreservesReads` | internal/store/store.go:441-508 | over any further writes and compactions a read at a revision still permitted is unchanged |
| `Batching.ReadRightIff` | internal/store/store.go:441-484 | on a store without the rows superseded at or below a target, a read at any revision returns the serial value if and only if the newest row it needs is not a deleted put |
| `Batching.LoweredWatermarkExact` | internal/store/store.go:441-484 | after compacting a store that holds every row to T and then to a lower t, every read from t to the current revision is right if and only if no put is replaced at a revision above t and at or below T |
| `Batching.LoweredWatermarkMisreads` | internal/store/store.go:441-484 | a run in which one is not: three puts of one key, compacted to 3 and then to 1 |
| `Batching.AscendingTargetsSuffice` | internal/store/store.go:441-484 | with targets that never go down, a read by revision is refused as compacted below the watermark and returns the serial state at the revision from there on |
| `Watch.ScanLog` | internal/store/store.go:1016-1061 | one scan returns the events of the prefix's rows in range and the number of rows visited |
| `Watch.ScanIsHistory` | internal/store/store.go:1016-1061 | a scan that starts at or above every compaction target finds exactly the prefix's writes in the range, in log order, each once |
| `Watch.CompactionHidesExactly` | internal/store/store.go:441-484 | after a compaction a scan still finds every event if and only if none of them was superseded at or below the target |
| `Watch.OvertakenByCompaction` | internal/store/store.go:441-484 | two puts of one key, however batched, then a compaction at the second: a scan of both misses the first |
| `Watchers.Start` | node.go:1151-1181 | a watch is refused exactly when it starts at or below the compacted revision; otherwise the first revision it is to deliver is the one asked for, or the one after the current for 0 |
| `Watchers.WatchDeliversHistory` | internal/store/store.go:970-1001 | in any interleaving of Apply and Recover with the watch loop, while no scan starts below a compaction target, what a watch from N was sent is a prefix of the matching history from N on (from the next revision for 0), all of it up to nextRev - 1 whenever the loop waits, and all there is when it waits for a revision to come |
| `Watchers.EventsRebuildState` | internal/store/store.go:1016-1061 | a copy of the state before a range of revisions, fed with the range's events, becomes the state after it on the keys of the prefix, and changes on no others |
| `Watchers.WatcherRebuildsState` | internal/store/store.go:970-1001 | so in every such run a receiver that started from the state before the watch has the current state of the prefix whenever the watcher has caught up |
| `Wakeup.RunsLoseNoWakeup` | internal/store/store.go:511-558 | in any interleaving no waiter sleeps on the open channel at its target unless the broadcast is still to come, and none returns below its target |
| `Wakeup.ReachedWaiterReturns` | internal/store/store.go:536-558 | once its revision is reached and announced, a waiter returns within three steps of its own loop |
| `Requests.PutMeaning` | writes.go:50-80 | a put changes only its key: value and lease as given, the new revision, the old creation revision or the new one, a link to the old revision, one version more |
| `Requests.CreateMeaning` | writes.go:83-127 | creating a live key is the error that it exists and writes nothing; otherwise it is a put |
| `Requests.DeleteMeaning` | writes.go:186-277 | a delete removes exactly its key, and writes nothing if the key is absent |
| `Requests.DeleteIfRevisionMeaning` | writes.go:214-277 | it does so exactly when the key is live at that revision, or at any for revision 0, and replies with what was there |
| `Requests.UpdateMeaning` | writes.go:130-183 | a compare-and-swap is a put exactly when the key is live at the expected revision; either way the reply has what was there |
| `Requests.CompactMeaning` | writes.go:726-755 | a compaction is logged with its target, takes a sequence number but no revision and leaves the state alone |
| `Requests.EntryStamped` | writes.go:50-80 | every entry carries the leader's term and the next sequence number, and a data entry the next revision |
| `Requests.RecordsLinkBack` | writes.go:534-602 | every record of every request tells where its key comes from: the live key's creation, last revision and version, one more for a put, or a creation now |
| `Requests.VersionsCount` | writes.go:800-815 | after any requests the version of a live key is the number of writes since it was last deleted |
| `Requests.ConditionsMean` | writes.go:296-356 | the conditions are met if and only if each compares as its target and operator say, an absent key counting as 0 or empty and an unknown target or operator never holding |
| `Requests.TxnDecision` | writes.go:494-619 | the conditions choose the branch; it is written exactly when some put or delete of a live key is in it, they are at most 65535 and no two name one key; otherwise the reply says which failed, in this order, and a written one names the deleted keys |
| `Requests.TxnMeaning` | writes.go:528-619 | afterwards every key deleted while live is absent, every put key is what a put alone would have made of it, and no other key has changed |
| `Requests.DeletedAbsentIff` | writes.go:551-575 | a key the branch deletes is absent afterwards if and only if it was live before or the branch does not also put it |
| `Serial.SequencesConsecutive` | writes.go:50-80 | the sequence numbers handed out by any requests have no gap |
| `Serial.RecordsBounded` | writes.go:534-602 | every operation a leader writes has a version at most prevRev - createRev + 2, or + 1 for deletes |
| `Pipeline.OverlayIsHistory` | writes.go:281-292 | reading the overlay over the store is reading the state after every assigned entry |
| `Pipeline.PipelineIsSerial` | leader.go:425-519 | however taking, applying and clearing batches and cleaning up interleave with requests, the log, the counters and every reply equal those of executing the requests one at a time |
| `Pipeline.TruthfulExactlyWithoutLeak` | writes.go:186-211 | after a request the overlay still tells the truth if and only if the request was not a plain delete of a live empty key |
| `Pipeline.LeakRun` | writes.go:186-211 | from every state, putting the empty key and deleting it leaves an overlay that does not |
| `Pipeline.LeakedDelete` | writes.go:186-211 | such a delete uses up a revision and a sequence number, logs nothing and answers as if the key had not been there |
| `Pipeline.DrainedStoreIsSerial` | leader.go:503-519 | once everything is applied the store holds exactly the one-at-a-time log, whatever the batches were |
| `Pipeline.StoreHoldsPrefix` | leader.go:503-510 | at every moment the store holds a prefix of that log |
| `InFlight.OverlayDrains` | leader.go:503-524 | in every run of a new leader, abandoned batches included, once nothing is queued or under way the overlay is empty but for the empty key |
| `InFlight.SettledIsGone` | writes.go:650-662 | a returning caller leaves no record of its own write, and every other record as it was |
| `AbortedBatches.AbortKeepsIff` | leader.go:502-524 | when callers abandon a batch and the loop goes on, the overlay and the remaining log are in order again if and only if the overlay record of the empty key was not that of a single write of the batch |
| `AbortedBatches.DecidedOnWhatIsLeft` | leader.go:502-524 | over every run of pipeline steps and abandoned batches without such a record, every request is decided as on the state of the log that is left |
| `AbortedBatches.StuckRun` | writes.go:700-723 | from every idle state, putting the empty key and abandoning that batch leaves an overlay that does not tell the truth |
| `AbortedBatches.AbortLeavesSerial` | leader.go:502-524 | in any run, when the batch under way is abandoned and no request decided after it read a key it wrote, the remaining log is that of executing the other requests one at a time, with the same replies, the counters starting where the batch left them |
| `AbortedBatches.AbortOfPutsIff` | leader.go:502-524 | among puts the remaining log is that of a one-at-a-time run if and only if no key of the batch was put again after it |
| `Aborts.RestIsSerial` | writes.go:186-211 | for any requests, those that read nothing a stretch of the log wrote append the same entries and get the same replies without it |
| `Aborts.PutsUnnoticedIff` | writes.go:186-211 | for puts this is exact: without the earlier ones the later ones would append the same entries if and only if no key is put by both |
| `Node.Node.constructor` | leader.go:68-110 | a new leader starts with an empty overlay, at the revision of its store and at a sequence not below any stored entry or the local log |
| `Node.Node.ReadKey` | writes.go:281-292 | returns the key's state after every assigned entry |
| `Node.Node.PreparePut` | writes.go:50-80 | builds the put entry and its overlay record and advances both counters |
| `Node.Node.Put` | writes.go:19-47 | does what the specified step does to the pipeline and keeps its invariant |
| `Node.Node.Create` | writes.go:83-127 | the same, refusing a key that exists in the serial state |
| `Node.Node.Update` | writes.go:130-183 | the same; a refusal returns the serial value and the store's committed revision |
| `Node.Node.PrepareDelete` | writes.go:262-277 | builds the delete entry and its overlay record, or nothing for an absent key |
| `Node.Node.Delete` | writes.go:186-211 | the same as the specified step, which keeps the invariant unless it deletes the live empty key |
| `Node.Node.DeleteIfRevision` | writes.go:214-258 | likewise, with the revision check against the serial state |
| `Node.Node.EvalConditions` | writes.go:495-506 | true exactly when all conditions match the serial state, as `Requests.ConditionsMean` spells out |
| `Node.Node.ResolveOps` | writes.go:528-570 | the writes of a branch against the state before it, without deletes of absent keys; `Requests.TxnMeaning` says what they do |
| `Node.Node.HasDuplicate` | writes.go:579-585 | true exactly when two writes name one key |
| `Node.Node.AssignTxn` | writes.go:587-619 | stamps created keys, puts every write on the overlay and reports the deleted keys |
| `Node.Node.Txn` | writes.go:358-406 | does what the specified transaction step does, with its errors and replies, as `Requests.TxnDecision` and `Requests.TxnMeaning` spell out |
| `Node.Node.Compact` | writes.go:726-753 | assigns a sequence but no revision |
| `Node.Node.TakeBatch` | leader.go:425-448 | takes a prefix of the queue |
| `Node.Node.ApplyBatch` | leader.go:503-510 | applies the batch to the store in one call |
| `Node.Node.ClearPendingBatch` | writes.go:700-723 | takes the batch's writes off the overlay unless a newer write holds the key |
| `Node.Node.CleanPending` | writes.go:650-660 | a returning caller clears only its own record |
| `Replication.CountBelowMeans` | internal/peer/client.go:224-235 | the staged entries dropped or cut are exactly the leading ones below the bound |
| `Replication.BufferHoldsNewest` | internal/peer/server.go:466-471 | however many entries were pushed, the buffer holds the newest cap of them, in order |
| `Peer.EntryBuffer.EntriesSince` | internal/peer/server.go:473-491 | the entries from the requested sequence on, or a miss when the buffer starts above it |
| `Peer.PeerServer.SendAll` | internal/peer/server.go:119-178 | every follower's channel gets the message, or is closed and forgotten when full |
| `Peer.PeerServer.Broadcast` | internal/peer/server.go:119-140 | the entry becomes pending and is fanned out |
| `Peer.PeerServer.Settle` | internal/peer/server.go:144-163 | only the committed range of pending entries reaches the replay buffer; older ones are dropped, later ones stay |
| `Peer.PeerServer.BroadcastCommit` | internal/peer/server.go:144-178 | that, followed by fanning out the marker |
| `Peer.PeerServer.Register` | internal/peer/server.go:281-311 | refuses a follower below the leader's start or the buffer; otherwise snapshots and registers in one step |
| `Peer.CutBatch` | internal/peer/client.go:217-248 | accepts exactly a complete run start..rev of staged entries, ignores old markers, and otherwise asks for a resync |
| `Peer.Client.Handle` | internal/peer/client.go:212-262 | one message does to the follower and its stream what the specified reaction does |
| `Peer.Client.TakeBatch` | follower.go:27-64 | a batch is stored only if it continues the log, acknowledged after it is stored, and applied after that |
| `ClusterProofs.FollowersStayFaithful` | internal/peer/client.go:144-264 | in every run of broadcasts, commits, aborts, joins, deliveries, failures, disconnects and resyncs under one leader, each follower's log is gapless and holds the committed entry at every sequence |
| `ClusterProofs.AbortedNeverApplied` | internal/peer/server.go:144-163 | an entry whose batch was given up is never applied by any follower |
| `ClusterProofs.AcksAreDurable` | internal/peer/client.go:249-257 | whatever ACK the server has recorded for a node, the node durably holds every committed entry up to it |
| `ClusterProofs.AckOnlyRises` | internal/peer/server.go:352-368 | no step lowers a recorded ACK, and only the stream registered for the node raises it, to the ACK it delivers |
| `ClusterProofs.AcksNeverFall` | internal/peer/server.go:352-368 | over any run in which a node's ACK stays on record, it never falls |
| `ClusterProofs.AcceptedBatch` | internal/peer/client.go:217-248 | an accepted batch is a consecutive run of staged entries from the marker's start to its end |
| `CatchUp.NoGapAfterJoin` | internal/peer/client.go:144-264 | a stream opened between two batches never asks for a resync, whatever else happens in a run without aborts |
| `CatchUp.ReadersCatchUp` | internal/peer/server.go:281-420 | having read all of such a stream while it is fed, the follower has applied every committed sequence |
| `Progress.TakenInIsOnRecord` | internal/peer/client.go:249-257 | in every run from the opening of a stream, a follower still registered whose ACKs have arrived is on record with everything it has taken in |
| `Progress.CaughtUpIsCounted` | internal/peer/server.go:352-368 | so one that has read all of a stream opened between batches counts as having acknowledged every committed sequence |
| `Progress.SlowFollowerIsCut` | internal/peer/server.go:118-178 | a broadcast reaches every registered follower whose channel has room, at its end; one whose channel is full is forgotten and its channel closed |
| `Progress.StoppedAsksAgain` | internal/peer/client.go:196-262 | a follower to which nothing fails stops only at a marker, with its log as it was, and asks for what it takes in next, or for the start of a batch that does not continue its log |
| `Progress.StreamEndForgets` | internal/peer/server.go:313-330 | the end of the stream a follower is registered with makes the server forget the follower and its ACK; the end of any other stream changes nothing there |
| `Progress.ResyncReaches` | follower.go:311-345 | a resync brings a follower to the sequence it was asked for, with the committed entries in between, and has it ask for the next one |
| `CatchUp.MidBatchStreamIsLost` | internal/peer/client.go:144-264 | in any run, aborts included, a stream opened in the middle of a batch is lost at the first marker that reaches that batch |
| `CatchUp.SurvivesIffBetweenBatches` | internal/peer/server.go:281-311 | in every run without aborts from the start, reading the first marker past the join leaves the follower on its stream if and only if no batch was under way when it joined |
| `CatchUp.MidBatchRun` | internal/peer/server.go:281-311 | a run in which one was: one entry is sent, the follower joins, the batch commits |
| `Quorum.CountAcks` | internal/peer/server.go:216-232 | counts acknowledged followers up to the target, and the lagging ones when below it |
| `Quorum.WaitForFollowers` | internal/peer/server.go:198-245 | succeeds by the target only with that many followers of the start still connected and acknowledged, by attrition only when none still connected lags, and otherwise only by cancellation |
| `Quorum.ReachedIsMajority` | internal/peer/server.go:247-259 | with the leader a reached quorum is a strict majority of the leader and the followers connected at the start; in "all" mode it is all of them |
| `Quorum.QuorumIsLeast` | internal/peer/server.go:247-259 | the quorum is the least number of ACKs that make a strict majority with the leader |
| `Quorum.CountedAreDurable` | internal/peer/server.go:198-245 | whoever is counted durably holds every committed entry up to the sequence |
| `Quorum.ReachedIsDurable` | internal/peer/server.go:188-259 | when a wait that watches a replication run reaches its target, every counted follower is connected and durably holds all that was committed up to the sequence, and with the leader they are a strict majority of those connected at the start, or all of them in "all" mode |
| `ReadIndex.ReachedIsCurrent` | node.go:900-930 | a prefix of the leader's log that has reached the answered revision holds every data entry assigned before it and tells the same state up to it |
| `JointRuns.FollowerHasPrefix` | leader.go:425-519 | in every run of pipeline and replication together, each follower's log is a prefix of what the leader has committed |
| `JointRuns.FollowerReadsAreCurrent` | node.go:900-930 | in every such run, a follower that has applied up to the revision the leader answered holds every data entry assigned before the answer, so every acknowledged one, and tells the leader's state at every revision up to it |
| `Election.NewTermAbove` | internal/election/election.go:93-96 | a new term exceeds the one read if and only if that was not the last 64-bit term, and is one more than the greater of that and the floor while neither is the last |
| `Election.NewTermAboveFloor` | internal/election/election.go:133-136 | it exceeds the caller's floor unless the greater of the two was the last term |
| `Election.LockObject.PutIfAbsent` | internal/election/election.go:222-224 | writes exactly when the object is absent |
| `Election.LockObject.PutIfMatch` | internal/election/election.go:225-229 | writes exactly when the object is what was read |
| `Election.Lock.Acquire` | internal/election/election.go:82-139 | wins exactly when the lock still is what it read and that was free, this node's own, or for a takeover another's with a term at most the floor and a CommittedRev at most the caller's; a win writes the new term, a loss changes nothing and returns the owner that was in the way |
| `Election.CandidateWinsIff` | internal/election/election.go:82-139 | the same of a candidate's write in a run |
| `Election.ToucherWritesIff` | leader.go:225-266 | a touch in a run goes through exactly when the lock still is what it read and names that leader and term |
| `Election.OwnerChangesByTakeover` | internal/election/election.go:82-139 | over any interleaving, a lock with an owner passes to another only by a takeover whose read had a term at most its floor, and never by an acquisition at startup |
| `Election.Lock.FencedCheck` | leader.go:214-266 | steps down exactly when fenced, when the lock read names another, or when an answered touch finds it taken; a failed read, no touch or a touch of unknown outcome keeps the leadership, and the lock is changed only from and to a record of this leader |
| `Election.ElectionSafety` | internal/election/election.go:82-139 | for any nodes and any interleaving of reads and conditional writes, counting from what the lock held at the start: terms never decrease, every win has a term above all before it, the owner changes only by a win, which never lowers CommittedRev, and a touch keeps owner and term |
| `Election.SupersededNeverTouches` | leader.go:225-266 | from a win on no content carries a term the lock had before it |
| `Checkpoint.WriteRestorable` | internal/checkpoint/checkpoint.go:195-263 | a new checkpoint has all it refers to, and breaks no other |
| `Checkpoint.CollectRestorableIff` | internal/checkpoint/checkpoint.go:631-742 | a surviving checkpoint is restorable after a collection if and only if none of its SSTs was judged an orphan |
| `Retention.CollectKeepsIff` | internal/checkpoint/checkpoint.go:631-709 | a checkpoint is left if and only if it was there and fewer than max(1, keep) are newer, or it is pinned, or the manifest names it |
| `Retention.AtLeastKeep` | internal/checkpoint/checkpoint.go:631-709 | so keep checkpoints are left if there were as many |
| `Retention.SstLeftIff` | internal/checkpoint/checkpoint.go:661-742 | an SST goes if and only if a deleted checkpoint used it and none of the newest keep or pinned ones does |
| `Retention.ProtectedStaysRestorable` | internal/checkpoint/checkpoint.go:631-742 | the newest keep checkpoints, by that count, and the pinned ones survive and stay restorable |
| `Retention.WriteRestores` | internal/checkpoint/checkpoint.go:195-263 | restoring a checkpoint gives back exactly the files it was written from, and writing one changes no other |
| `Retention.WriteAttributes` | internal/checkpoint/checkpoint.go:385-415 | an SST is recorded as inherited if and only if the manifest's checkpoint does not own it and inherits it, or inherits nothing while the ancestor store holds it; every other one is uploaded unless it was before |
| `Retention.RunRestores` | internal/checkpoint/checkpoint.go:195-742 | in every run, a checkpoint in the store stands for the files of the last write under its key |
| `Checkpoint.CheckpointsStayRestorable` | internal/checkpoint/checkpoint.go:195-742 | over any run of writes in order, branch registrations and collections with any keep, every checkpoint in the store can be restored |
| `Checkpoint.PinnedSurvives` | internal/checkpoint/branch.go:25-71 | in every run, from the registration of a branch until its pin is moved or removed, the pinned checkpoint is in the store and can be restored |
| `Checkpoint.OldManifestBreaksIff` | internal/checkpoint/checkpoint.go:661-690 | a manifest outside the newest keep survives but is broken exactly when an SST of it is shared with a deleted checkpoint and with no live one |
| `Checkpoint.OldManifestCanBreak` | internal/checkpoint/checkpoint.go:661-690 | three writes with the oldest key last reach such a store, whichever SST the two older checkpoints share |
| `Branches.CollectLeavesBranchIff` | internal/checkpoint/checkpoint.go:631-742 | a collection in the ancestor store leaves a checkpoint of a branch restorable if and only if no SST it inherited was judged an orphan there |
| `Branches.BranchStaysRestorable` | internal/checkpoint/branch.go:25-71 | from the registration of a branch on, over every run of writes in order and collections in both stores that leaves the pin alone, while the branch inherits from the pinned checkpoint only, every checkpoint of the branch can be restored from the ancestor store as it is |
| `CheckpointStore.Manager.WriteAtSequence` | internal/checkpoint/checkpoint.go:195-263 | uploads what is missing and writes index and manifest as specified |
| `CheckpointStore.Manager.GcCheckpoints` | internal/checkpoint/checkpoint.go:631-709 | leaves exactly the newest max(1, keep) checkpoints, the pinned ones and the manifest's, and returns exactly the orphans |
| `CheckpointStore.Manager.CollectAll` | internal/checkpoint/checkpoint.go:631-742 | that and the deletion of the orphans in one step, leaving exactly those checkpoints |
| `EtcdRange.PrefixRangeEnd` | etcd/watch.go:440-449 | the loop computes the end of the prefix's range, "\x00" when there is none |
| `EtcdRange.PrefixIsRange` | etcd/watch.go:436-449 | a key has prefix p if and only if it lies in [p, end) with "\x00" as the open end |
| `EtcdRange.ScanCoversMatches` | etcd/kv.go:522-537 | narrowing the scan to the prefix loses no match |
| `EtcdRange.ExactPrefixDecides` | etcd/kv.go:515-537 | on an exact prefix range a key matches if and only if it has the prefix, internal keys included |
| `EtcdRange.WatchScanCovers` | etcd/watch.go:418-434 | the watched prefix covers every key the watch asks for |
| `EtcdRange.RangeExact` | etcd/kv.go:68-114 | the count and limit fast paths answer as filtering all live keys would |
| `EtcdRange.RangeFiltered` | etcd/kv.go:77-139 | the filtering paths do too, with count, limit and the more flag |
| `EtcdRange.WireViewIsSerial` | etcd/server.go:217-234 | the state behind a wire revision at or above every compaction target is the serial state one revision lower; the first wire revision sees nothing |
| `EtcdRange.RangeAt` | etcd/kv.go:36-140 | at every permitted revision of the store the answer is the reference over what the stored rows tell |
| `EtcdRange.Range` | etcd/kv.go:17-140 | every answer, translated to wire revisions, equals the reference over all live keys at the revision asked for, under a header that names it; compacted and future revisions are errors |
| `EtcdWire.AnswerMeans` | etcd/server.go:241-254 | the entries of an answer are the asked-for live keys in ascending order, from the first on, each with the state's revision and creation revision one up, its lease and version, and its value unless only keys were asked for |
| `EtcdWire.AnswerCounts` | etcd/kv.go:36-140 | the count is the number of all asked-for keys, the entries are that many or the limit of a range, and more says that not all are returned |
| `EtcdWire.EntriesAreHistory` | etcd/server.go:217-254 | of every entry 2 <= create revision <= mod revision <= header revision, and a Range of its key at its mod revision answers just this entry |
| `EtcdWire.WatchReportsRange` | etcd/watch.go:418-434 | a watch reports exactly the keys that a Range of the same bounds asks for, and the server's own |

## Left out

- WalArchive.ReplayDeterministic: assumes that two entries of one term at one sequence are equal, because the sort in the source is not stable.
- RecoverBatches.RecoverBatchIff: the recovered entries contain no compaction.
- AbortedBatches.AbortOfPutsIff: the exact condition is for puts; for other requests `AbortedBatches.AbortLeavesSerial` gives a sufficient one.
- Branches.BranchStaysRestorable: the branch inherits SSTs of the pinned checkpoint only; a first checkpoint that lists the whole ancestor store may attribute others to it, for which `Branches.CollectLeavesBranchIff` says what happens.
- Election.ElectionSafety: holds while no content carries the last 64-bit term.
- Watchers.WatchDeliversHistory: events carry no previous value.
- EntryCodec.CrashRecoversPrefix: the checksum is an arbitrary function of the payload, so nothing is said about corrupted bytes.
- Node.Node.ApplyBatch: abandoning a batch is a step of `AbortedBatches`, not a method; fatal WAL or store errors and stepping down are not modelled.
- Quorum.WaitForFollowers: what the waiter sees at each wake-up is a parameter; when it is woken is not modelled.
- JointRuns.FollowerReadsAreCurrent: the runs contain no aborted batch and no plain delete of a live empty key.
- Replay of local segments at startup.
- Restoring pinned object versions, and writing checkpoints from an SST registry.
- Client-side forwarding, leases, authentication, and the etcd calls other than Range.
- Splitting watch responses by size and watch progress revisions.
- The election fallback for object stores without conditional writes.
- Encryption, TLS, gRPC, metrics, logging, configuration and the command line.
- Pebble internals, fsync, file renames and CRC arithmetic: Pebble is a sorted map and a synced write is durable.
- Wall-clock behaviour: liveness timestamps, tickers, timeouts and retries only appear as steps that may happen.
