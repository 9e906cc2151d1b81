# A verified model of the key-value storage engine

Beyond KV is a log-structured, value-separated key-value store. Each shard keeps its
namespaces as append-only segments with an in-memory index, stores large values as
content-addressed blobs, merges sealed segments tier by tier, recovers from crashes by
reading footers or replaying records, and serves reads through an S3-FIFO cache.

This project models that engine in Dafny and proves what it promises.

The namespace log under concurrency is a step machine (`LogMachine`). A step is the code
between two `.await` points; tasks are any number of puts, conditional puts, batches,
deletes, TTL updates, reclaims, flushes, freezes and syncs; the schedule is arbitrary.
Its theorems hold for every run: locks and gates stay consistent and never deadlock
(`LogLocks`), schedules end (`LogProgress`), the log replays to the runtime index
(`LogReplay`), conditional writes have one winner (`LogCas`), increments are not lost
(`LogIncr`), a write takes effect on the condition it checked and on its own keys only
(`LogWrites`), referenced blobs exist and counts are exact (`LogBlobs`), and no blob file is
forgotten (`LogGarbage`).

Everything that works on one task's view is imperative, as in the source: classes for the
index, the blob store, the namespace log with its fsync boundary, the segmented log with
its compaction, the cache and the shard store; methods with loops for encoding, footers,
replay, glob matching, paging and shard fan-out. Each is proved against a specification
that never mentions it.

Crashes are covered in two places. A power loss cuts the active file at any byte past the
last fsync: `CrashState` says what every write, batch, sync and flush keeps so that no cut
loses a blob, `Durability` has the operations, and `DurableRuns.Run` the theorem for every
state of every run. A crash during rotation or compaction leaves a directory between two
steps of the disk: `SegmentState` keeps the invariants, `Compaction` records every state of
the disk, and `Compaction.Run` proves that any directory mixing the files of two
neighbouring states, inside any operation of any run, recovers the latest record of every
key, with its blob hash. `LoggedItems` connects the segments to the store: what a run leaves
in the files is what the store's commands say. What the commands mean is said a second time
in `StoreLaws`, by the replies of GET and TTL before and after each of them, and what a glob
pattern means in `GlobMeaning`, without the parser.

Some statements turn out to hold only under a condition, and the condition is proved exact:

- A clean shutdown writes footers that list live keys only, and reopening trusts footers.
  A delete recorded in a later sealed segment is therefore not seen, and the key returns
  (the run `Compaction.DeletedKeyReturns`). Exactly the live keys come back if and only if no
  footer already on disk lists a key that is gone (`Compaction.SegmentedLog.SealForShutdown`).
- In the same way a TTL change recorded in a later sealed segment is forgotten
  (the run `Compaction.ExpiryForgotten`). A key's expiry comes back if and only if the key is
  in the active file or its expiry is still the one recorded when the footer of its own
  segment was written (`Compaction.SegmentedLog.SealForShutdown`).
- Replay sets the blob sidecar of a key but never clears it, so a restart can count a blob
  that is no longer on disk; the next write of the same content is then skipped and a live
  key has no blob (the run `DurableRuns.StaleSidecarLosesBlob`). A reopened namespace is as
  safe as a fresh one if and only if, for every key of the kept log, the blob of its last
  separated record since its last tombstone was on disk (`CrashState.ReopenedSafe`).
- `sync` zeroes its byte counter and collects garbage when its fsync returns, whatever was
  written while it was awaited. A blob superseded meanwhile is deleted before the record
  that supersedes it is durable (the run `DurableRuns.SyncRace`). The collection is safe if
  and only if every blob queued meanwhile has a reference again
  (`DurableRuns.SyncDuringWrites`).
- A batch whose later blob cannot be written keeps the references of its earlier ones (the
  run `LogBlobs.ForgettingRun`). Step by step, reference counts stay exact if and only if
  that does not happen (`LogBlobs.ExactStep`).
- A failed blob write that leaves its file behind strands it until the next open sweeps it;
  step by step, every file stays referenced or queued if and only if that does not happen
  (`LogGarbage.TidyStep`).
- SET with KEEPTTL copies the expiry the index holds, even one that has passed, so the new
  value of a key that lingers past its expiry is never seen (the run
  `StoreLaws.KeepTtlLosesWrite`). It is seen if and only if the key does not linger
  (`StoreLaws.KeepTtlExact`). The comment on conditional writes takes an absent key to have no
  expiry there; an expired one counts as absent and has.
- The glob matcher compares a pattern byte with a key byte before it looks for a star, so a
  star in the key can use up the star of the pattern. For a key it agrees with the meaning
  of every pattern if and only if the key holds no star byte (`Glob.GlobExact`).
- Shard-tagged scan cursors hold the shard number in one byte. They are exact if and only if
  there are at most 256 shards (`Paging.CursorsExact`); with more, no scan that a client
  drives ever ends (`Paging.NeverDriven`).

Modelling choices: the checksum, the content hash, the key hash and the decimal codec are
arbitrary functions; clock readings are arbitrary inputs; writing a blob durably is one
atomic step; files are sequences of bytes or records, and the directory is a map from file
id to file. Bytes are integers below 256, revisions and expiries below 2^64, file ids below
2^32, with every width check of the source written out.

Where code and documentation differ the model follows the code: a footer whose trailer is
there but whose checksum or entries are wrong is reported as an error, while the comment on
`open_namespace` speaks of rebuilding from records; only an absent trailer leads to a scan.

## Model

| member | source | states |
|---|---|---|
| `Types.NextStamp` | crates/engine/src/log/mod.rs:241-247 | the least revision above the last one issued and not below the clock |
| `Types.U64RoundTrip` | crates/engine/src/log/record.rs:4-11 | an 8-byte little-endian field read back is the number written |
| `Types.HighByte` | crates/engine/src/log/record.rs:4-11 | each further byte of a little-endian field counts 256 times the one before it |
| `Records.EncodeInto` | crates/engine/src/log/record.rs:119-160 | zeroing, patching and appending in place yields the buffer followed by exactly the record encoding; refused exactly when the record exceeds 32 bits |
| `Records.Layout` | crates/engine/src/log/record.rs:37-46 | the place of every field of an encoded record; the checksum covers everything after it |
| `Records.FlagBits` | crates/engine/src/log/record.rs:25-34 | the four flag bits mean tombstone, no expiry, TTL update and separated value |
| `Records.ParseHeaderBytes` | crates/engine/src/log/record.rs:70-93 | parsing an encoded header gives back every field, and the checksum verifies |
| `Records.ReadEncoded` | crates/engine/src/log/recover.rs:165-200 | reading at the start of an encoded record returns that record, whatever follows |
| `Records.ReadCut` | crates/engine/src/log/recover.rs:165-200 | a record cut anywhere is not read |
| `Records.ReadExact` | crates/engine/src/log/recover.rs:165-200 | bytes are read as a record if and only if they start with its encoding, checksum included |
| `Records.ReadTorn` | crates/engine/src/log/recover.rs:188-195 | a record whose body was overwritten with other bytes is read if and only if their checksum is the stored one |
| `Records.ScanExact` | crates/engine/src/log/recover.rs:165-210 | for any bytes whatsoever, the records a replay accepts are exactly the longest run of encodings the bytes start with |
| `Records.ScanDamaged` | crates/engine/src/log/recover.rs:165-210 | damage after intact records ends the replay with exactly those |
| `Records.ScanEncodes` | crates/engine/src/log/recover.rs:165-210 | the bytes a replay accepts are the encoding of its records |
| `Records.ScanTruncated` | crates/engine/src/log/recover.rs:165-210 | scanning any encoded log cut at any byte yields exactly the records that end at or before the cut |
| `Records.RecordBytes` | crates/engine/src/log/mod.rs:634-643 | the bytes at a record's offset and size are its encoding |
| `Batch.Lay` | crates/engine/src/log/mod.rs:450-468 | the batch buffer is the encoding of all pairs in order, and each layout entry is where its pair starts, its size and its revision; refused exactly when some pair does not fit |
| `Batch.BatchDecodes` | crates/engine/src/log/mod.rs:484-502 | each recorded (base + start, size) of a batch decodes to its own pair, at the end of any file |
| `Footer.ParseEncodedEntry` | crates/engine/src/log/file.rs:147-226 | a footer entry parses back with its expiry and hash options and its exact length |
| `Footer.EntryLayout` | crates/engine/src/log/file.rs:127-146 | the place of every field of a footer entry |
| `Footer.WriteFooter` | crates/engine/src/log/file.rs:404-420 | the appended footer is the encoding of the entries followed by the trailer |
| `Footer.ReadFooter` | crates/engine/src/log/file.rs:425-488 | three-way result: absent, corrupt, or the entries |
| `Footer.ReadEntries` | crates/engine/src/log/file.rs:475-487 | the cursor loop parses every entry of a body, and refuses it when some entry is malformed |
| `Footer.FooterExact` | crates/engine/src/log/file.rs:425-488 | a footer is accepted if and only if the file ends with a body of well-formed entries and the trailer with its length, its checksum and the magic number; it is absent if and only if the magic number is |
| `Footer.SealRoundTrip` | crates/engine/src/log/file.rs:329-346 | after any data, a written footer reads back as exactly the entries, and the end of data is exactly where the records end |
| `NamespaceIndex.NsIndex.Insert` | crates/engine/src/log/index.rs:109-121 | entry and expiry of one key replaced, blob kept, nothing else changed, live count exact |
| `NamespaceIndex.NsIndex.SetTtl` | crates/engine/src/log/index.rs:123-132 | only the expiry of one key changes |
| `NamespaceIndex.NsIndex.SetBlob` | crates/engine/src/log/index.rs:76-87 | only the blob hash of one key changes |
| `NamespaceIndex.NsIndex.Remove` | crates/engine/src/log/index.rs:134-142 | entry, expiry and blob of one key are dropped together; the old entry is returned; live count exact |
| `NamespaceIndex.NsIndex.Scan` | crates/engine/src/log/index.rs:176-216 | a page is the ascending run of all eligible keys above the cursor up to its last key, and is final exactly when not full |
| `Order.LessExact` | crates/engine/src/log/index.rs:40-46 | keys are ordered by their first difference, a proper prefix first |
| `Recover.ApplyRecordTo` | crates/engine/src/log/recover.rs:212-278 | replay of one record: tombstones drop, orphan TTL updates are ignored, oversized records are skipped, the blob sidecar is set but never cleared |
| `Recover.ReplayAt` | crates/engine/src/log/recover.rs:212-278 | what replay does to a key depends on that key alone |
| `Recover.ReplayActive` | crates/engine/src/log/recover.rs:165-210 | for any file: the records applied are exactly the longest run of intact encodings it starts with, each at its offset, and the file is cut to those bytes |
| `Recover.ReplayTruncated` | crates/engine/src/log/recover.rs:165-278 | for every log and every cut, the records kept are the longest prefix that fits and the truncated file is their encoding |
| `LogLocks.StepMoves` | crates/engine/src/log/mod.rs:204-239 | every step of a task changes only its own program counter, takes or frees only stripes and file locks it may, and keeps the write count and the flags in step with it |
| `LogLocks.LockInvStep` | crates/engine/src/log/mod.rs:1040-1071 | stripe ownership, file lock ownership, the in-flight count and the reclaim and freeze flags stay exact across every event |
| `LogLocks.LockInvRun` | crates/engine/src/log/mod.rs:204-239 | these hold in every reachable state of every run |
| `LogLocks.NoDeadlock` | crates/engine/src/log/mod.rs:440-449 | whenever some task is not done, some task can step: sorted stripes, blob file locks and draining never form a cycle |
| `LogProgress.StepSpends` | crates/engine/src/value_store.rs:210-223 | every step uses up a bound on the remaining work, counting the deletions it may queue |
| `LogProgress.RunsAreBounded` | crates/engine/src/log/mod.rs:1052-1071 | with no new tasks any schedule takes boundedly many steps |
| `LogProgress.SchedulesFinish` | crates/engine/src/log/mod.rs:1052-1071 | a schedule that can go no further has finished every task |
| `LogReplay.ReplayStep` | crates/engine/src/log/mod.rs:273-324 | every event keeps the runtime index, with the records still being committed counted in, in agreement with a replay of the segment: same keys, places and revisions, same expiry on present keys, and the same blob wherever the runtime index has one |
| `LogReplay.ReplayRun` | crates/engine/src/log/mod.rs:434-609 | this holds in every reachable state |
| `LogReplay.ReplayAgreesWithRuntime` | crates/engine/src/log/mod.rs:273-324 | with no write in flight, after any interleaving, replaying the segment gives the keys, places and revisions of the runtime index, the expiry of every present key, and the blob of every key that has one at runtime; a key overwritten inline may keep an older hash in the replayed sidecar |
| `LogReplay.SealSeesWholeSegment` | crates/engine/src/log/mod.rs:830-867 | when reclaim, flush or the shutdown seal builds its footer no write is in flight, none can be admitted, and the index agrees in the same sense with the replay of the segment |
| `LogCas.CasStep` | crates/engine/src/log/mod.rs:363-420 | every event keeps each key's last revision below what it issues next, and each conditional claim tied to the revision it saw |
| `LogCas.AtMostOneWinner` | crates/engine/src/log/mod.rs:363-420 | of any number of concurrent conditional puts and deletes with the same expected revision at most one wins |
| `LogCas.RevisionsIncrease` | crates/engine/src/log/mod.rs:241-247 | the revisions issued along any run are strictly increasing |
| `LogWrites.WritesRun` | crates/engine/src/log/mod.rs:363-420 | in every reachable state a writer past its check still meets its condition, and one past its append has its records in the segment |
| `LogWrites.PutTakesEffect` | crates/engine/src/log/mod.rs:273-420 | when a put takes effect in any run, its condition (absent, live, or live at that revision) holds at that moment whatever other tasks did since; each pair not overwritten later in its batch is what its key then shows: value or hash, metadata, expiry and the revision replied; no other key changes |
| `LogWrites.DeleteTakesEffect` | crates/engine/src/log/mod.rs:517-584 | a delete takes effect only on an indexed key, live and at the expected revision if one was given; the key is then gone and its tombstone is in the segment |
| `LogWrites.MissMeansUnmet` | crates/engine/src/log/mod.rs:363-400 | a write or delete is turned away only when its condition does not hold |
| `LogWrites.ExpireTakesEffect` | crates/engine/src/log/mod.rs:586-609 | a TTL update changes only the expiry of its key, to what was asked |
| `LogWrites.OutcomesHonest` | crates/engine/src/log/mod.rs:273-420 | in every run no outcome is reported that was not earned: success only after the records are indexed, the key is dropped, the seal has drained or the queue is empty; a refusal only under a freeze or another reclaim, changing nothing; not met only when the condition is not; failed only in a blob write |
| `LogWrites.FlushTakesEffect` | crates/engine/src/log/mod.rs:971-1026 | after a flush no key, reference, queued blob or file is left and the revision has moved on |
| `LogIncr.IncrRun` | crates/engine/src/store.rs:982-1073 | along any run of increment attempts on a counter stored inline, interleaved with each other, the counter equals its start plus the deltas committed so far |
| `LogIncr.NoLostIncrement` | crates/engine/src/store.rs:982-1073 | at the end the counter is its start plus the sum of the deltas of exactly the attempts that succeeded, each counted once |
| `LogBlobs.DiskStep` | crates/engine/src/value_store.rs:101-129 | every event keeps a counted blob on disk unless its file lock is held |
| `LogBlobs.BlobsRun` | crates/engine/src/value_store.rs:177-223 | this and the reference counts hold in every reachable state, failing blob writes included |
| `LogBlobs.ReferencedBlobsExist` | crates/engine/src/value_store.rs:101-129 | a blob with a positive count and a free file lock is on disk, and so is every blob an index entry names |
| `LogBlobs.RefcountsExact` | crates/engine/src/value_store.rs:177-202 | without the failure that drops a batch's earlier references, a count is exactly its keys plus writers holding a reference plus removals not yet dropped |
| `LogBlobs.ExactStep` | crates/engine/src/value_store.rs:101-129 | from a state with exact counts, a step leaves them exact if and only if it is not a failing blob write of a batch that had already taken references |
| `LogBlobs.ForgettingRun` | crates/engine/src/log/mod.rs:450-468 | a run from an empty namespace whose counts end up wrong: a batch of two large values whose second blob cannot be written |
| `LogGarbage.TidyStep` | crates/engine/src/value_store.rs:101-224 | a step leaves every blob file referenced or queued for deletion if and only if it is not a failed write that leaves its file behind |
| `LogGarbage.TidyRun` | crates/engine/src/value_store.rs:101-224 | so in every run without such a failure no blob file is forgotten |
| `LogGarbage.CollectedExactly` | crates/engine/src/value_store.rs:210-224 | once nothing is queued, the files on disk are exactly the referenced blobs |
| `ValueStores.ValueStore.Put` | crates/engine/src/value_store.rs:101-129 | one more reference; the file is written exactly when it is the first |
| `ValueStores.ValueStore.IncrRef` | crates/engine/src/value_store.rs:172-175 | one more reference, nothing written |
| `ValueStores.ValueStore.Unref` | crates/engine/src/value_store.rs:177-202 | one reference fewer; the last one queues the blob and deletes nothing |
| `ValueStores.ValueStore.CollectGarbage` | crates/engine/src/value_store.rs:210-224 | exactly the queued blobs without a reference are deleted |
| `ValueStores.ValueStore.SweepOrphans` | crates/engine/src/value_store.rs:242-262 | exactly the unreferenced files are deleted, and counted |
| `Durability.NamespaceLog.constructor` | crates/engine/src/log/mod.rs:140-190 | a fresh namespace is empty and satisfies the durability invariant |
| `Durability.NamespaceLog.Reopen` | crates/engine/src/log/mod.rs:140-190 | the state an open starts from: the blob files found on disk, nothing indexed or counted |
| `Durability.NamespaceLog.Recover` | crates/engine/src/log/mod.rs:140-190 | the index is the replay of the surviving records, counts are one per sidecar entry, the sweep keeps exactly the counted blobs, the clock is the newest recovered revision |
| `Durability.NamespaceLog.CountReferences` | crates/engine/src/log/mod.rs:151-156 | each count becomes the number of keys holding the hash |
| `Durability.NamespaceLog.SeedClock` | crates/engine/src/log/mod.rs:160-172 | the clock starts at the newest recovered revision |
| `Durability.NamespaceLog.NextTstamp` | crates/engine/src/log/mod.rs:241-247 | a fresh revision, kept as the last one |
| `Durability.NamespaceLog.IndexRecord` | crates/engine/src/log/mod.rs:343-355 | the record is indexed, and the blob it supersedes is the one the key held before |
| `Durability.NamespaceLog.PutFull` | crates/engine/src/log/mod.rs:273-324 | values over the threshold take a reference, writing the file on the first, before the one full record is appended and indexed and the superseded reference dropped; the bytes at the key's entry then decode to this key, metadata, expiry, revision and value, or its hash; a record over 32 bits is refused and keeps the reference it took; invariant kept |
| `Durability.NamespaceLog.BuildBatch` | crates/engine/src/log/mod.rs:450-468 | the pairs are stamped, separated and encoded in order with increasing revisions; refused exactly when some pair does not fit, with the references taken so far kept |
| `Durability.NamespaceLog.IndexBatch` | crates/engine/src/log/mod.rs:484-502 | all records of the batch are indexed in order, and the blobs returned are the ones each supersedes at its turn |
| `Durability.NamespaceLog.PutMany` | crates/engine/src/log/mod.rs:434-510 | all blobs first, one append of all records, then the index, then the superseded references; the state is that of committing the records one by one; each pair not overwritten later in the batch reads back; invariant kept, so a power loss may cut the append anywhere |
| `Durability.NamespaceLog.ReadValue` | crates/engine/src/log/mod.rs:634-698 | reads the last full record put under the key and not deleted since, value and metadata; a separated value hashes to what was stored; it fails only when that blob is missing, which in a valid namespace does not happen |
| `Durability.Deref` | crates/engine/src/log/mod.rs:666-691 | whatever the blob files hold, bytes that do not hash to the record's hash are not returned |
| `CrashState.SoundReads` | crates/engine/src/log/mod.rs:634-643 | in a namespace whose index agrees with its log, the bytes at a key's entry decode to its last full record not deleted since, and its expiry is that of its last put or TTL update |
| `Durability.NamespaceLog.Tombstone` | crates/engine/src/log/mod.rs:517-541 | a tombstone is appended exactly when the key was present, and its blob loses a reference; no blob file is deleted; invariant kept |
| `Durability.NamespaceLog.TtlUpdate` | crates/engine/src/log/mod.rs:586-609 | a TTL record is appended and only the expiry changes; invariant kept |
| `Durability.NamespaceLog.Sync` | crates/engine/src/log/mod.rs:621-632 | everything is synced and then exactly the queued blobs without a reference are deleted; invariant kept |
| `Durability.NamespaceLog.EndSync` | crates/engine/src/log/mod.rs:621-632 | when the fsync that covered `mark` records returns, those are durable, the byte counter is zeroed and the queue is collected, whatever was written in between |
| `Durability.NamespaceLog.Flush` | crates/engine/src/log/mod.rs:971-1026 | with the clearing of the blob store that follows it: index, log, counts, queue and blob files are empty, the revision moves on, invariant established |
| `CrashState.CrashImage` | crates/engine/src/log/mod.rs:326-355 | any cut of the file that keeps the synced records, in the middle of a batch too, leaves a prefix of the log with every blob its current records name |
| `CrashState.RecoveredKeysReadable` | crates/engine/src/log/recover.rs:165-278 | each recovered key points at its last full record in the kept log with its revision, and a separated one has its blob on disk and its hash in the sidecar |
| `CrashState.SweepKeeps` | crates/engine/src/value_store.rs:242-262 | the orphan sweep removes none of those blobs |
| `CrashState.ReopenedSafe` | crates/engine/src/log/mod.rs:140-190 | a reopened namespace is as safe as a fresh one if and only if, for every key of the kept log, the blob of its last separated record since its last tombstone was on disk before the open |
| `CrashState.ReplaySidecar` | crates/engine/src/log/recover.rs:264-277 | the sidecar replay builds is exactly that: the hash of each key's last separated record since its last tombstone, whatever inline records follow |
| `CrashState.ReopenedCounted` | crates/engine/src/log/mod.rs:151-156 | after a restart every counted blob is on disk under exactly that condition |
| `CrashState.RestartInit` | crates/engine/src/log/mod.rs:140-190 | and under exactly that condition the state is one the concurrent blob theorems start from |
| `CrashState.CommitSafe` | crates/engine/src/log/mod.rs:470-510 | committing a batch whose blobs are on disk keeps every cut covered and every reference counted |
| `CrashState.CommitSplit` | crates/engine/src/log/mod.rs:484-508 | indexing a whole batch first and dropping the superseded references after comes to the same as record by record |
| `CrashState.SyncEndExact` | crates/engine/src/log/mod.rs:621-632 | collecting after an fsync is safe if and only if every blob queued while it was under way has a reference again |
| `DurableRuns.Run` | crates/engine/src/log/mod.rs:273-632 | any run of puts, batches, deletes, TTL updates, syncs and flushes from an empty namespace: at every state of the run, any power loss that keeps the synced bytes leaves a log whose keys are all readable, before the orphan sweep and after it |
| `DurableRuns.SafeSurvives` | crates/engine/src/log/mod.rs:326-355 | in a safe state every power loss leaves every key of the kept log readable, and still readable after the sweep of the next open |
| `DurableRuns.StaleSidecarLosesBlob` | crates/engine/src/value_store.rs:101-115 | a run that fails: put large, overwrite inline, sync, restart, put the same content under another key; the count left over from replay makes the store skip the write, and a live key has no blob |
| `DurableRuns.SyncDuringWrites` | crates/engine/src/log/mod.rs:621-632 | writes landing while an fsync is awaited: the state after the collection is safe if and only if every blob they queued has a reference again |
| `DurableRuns.SyncRace` | crates/engine/src/log/mod.rs:621-632 | a run that fails: a large value overwritten while an fsync is awaited has its blob deleted before the overwrite is durable, and the byte counter is zero |
| `Segments.ApplyFooterAt` | crates/engine/src/log/recover.rs:117-125 | applying a footer gives a listed key its entry and leaves the others alone |
| `Segments.WrittenEntry` | crates/engine/src/log/recover.rs:129-161 | replaying a file that decides a key gives the same entry whatever came before |
| `Segments.ReopenServed` | crates/engine/src/log/recover.rs:31-114 | a key whose newest naming file resolves to its entry gets that entry on reopening |
| `Segments.ReopenLatest` | crates/engine/src/log/recover.rs:31-114 | reopening recovers every live key with its latest record, its revision and the blob hash of that record, exactly when its file is sealed and at least when the record has one |
| `Segments.ReopenBlob` | crates/engine/src/log/recover.rs:117-161 | the blob of a key after reopening is that of the newest file that names it |
| `Segments.AppendServes` | crates/engine/src/log/mod.rs:273-324 | appending a record leaves every key it does not decide served |
| `Segments.PutServes` | crates/engine/src/log/mod.rs:273-324 | a full record makes the active file serve its key from where it was put |
| `Segments.SealedDomain` | crates/engine/src/log/recover.rs:31-126 | with every file sealed, a key comes back exactly when some footer lists it |
| `Segments.CleanShutdownExact` | crates/engine/src/log/recover.rs:31-126 | with every file sealed, reopening recovers exactly the live entries if and only if no footer on disk lists a deleted key |
| `Segments.SealedExpiry` | crates/engine/src/log/recover.rs:117-125 | with every file sealed, the recovered expiry of a live key is the one in its own footer |
| `Merge.CopyStep` | crates/engine/src/log/reclaim.rs:99-121 | copying one live record keeps size, revision, expiry and blob, and gives it one footer entry, with the record's blob hash, and one index entry at its new place |
| `Merge.CopyKeeps` | crates/engine/src/log/mod.rs:1177-1182 | the new index has the same keys, revisions, sizes, expiries and blobs |
| `Merge.MergeServes` | crates/engine/src/log/reclaim.rs:123-150 | before and after the unlink of any of the inputs, every live key is served with the record it had |
| `Merge.MergeTiers` | crates/engine/src/log/mod.rs:1106-1195 | a run at level L descends from at least fanout^L level-0 runs, disjoint from those of every other run |
| `Merge.LevelBound` | crates/engine/src/log/mod.rs:1184-1194 | fanout^level never exceeds the number of level-0 runs, so the 8-bit level stays at or below 32 and never saturates |
| `Compaction.SegmentedLog.constructor` | crates/engine/src/log/recover.rs:31-50 | a fresh namespace has one empty active file and holds nothing |
| `Compaction.SegmentedLog.Put` | crates/engine/src/log/mod.rs:273-324 | the latest record of the key becomes this one, of every other key it is unchanged; a crash on the way recovers one or the other |
| `Compaction.SegmentedLog.Delete` | crates/engine/src/log/mod.rs:517-541 | the key has no latest record any more; found exactly when it was present; a crash on the way recovers one or the other |
| `Compaction.SegmentedLog.UpdateTtl` | crates/engine/src/log/mod.rs:586-609 | no key's latest record changes, and a crash on the way recovers them all |
| `Compaction.SegmentedLog.LiveIn` | crates/engine/src/log/mod.rs:1133-1140 | the live keys of the given files, each once |
| `Compaction.SegmentedLog.BuildFooter` | crates/engine/src/log/mod.rs:918-934 | one entry per live key of the file, with its place, revision, expiry and blob as the index has them |
| `Compaction.SegmentedLog.NextId` | crates/engine/src/log/mod.rs:936-949 | one above every id in use, refused when 32 bits run out |
| `Compaction.SegmentedLog.SealForShutdown` | crates/engine/src/log/mod.rs:830-867 | every file then has a footer and every live key is served with its latest record; reopening finds exactly the live keys if and only if no footer already on disk lists a key that is gone, finds every key's blob hash, and finds a key's expiry if and only if the key is in the active file or its expiry is still the one recorded when the footer of its file was written |
| `Compaction.SegmentedLog.SealActive` | crates/engine/src/log/mod.rs:1076-1096 | the active file becomes an open sealed run, nothing about any key changes, every file has its footer, and a crash on the way recovers every key |
| `Compaction.SegmentedLog.OpenActive` | crates/engine/src/log/mod.rs:1198-1216 | a fresh active file above every other, nothing about any key changes, and a crash on the way recovers every key |
| `Compaction.SegmentedLog.RotateActive` | crates/engine/src/log/mod.rs:918-959 | a seal and a fresh file; fails exactly when ids run out; a crash at any point recovers every key |
| `Compaction.SegmentedLog.CopyLive` | crates/engine/src/log/reclaim.rs:71-121 | the merged file holds exactly the live records of the inputs; its footer lists each with its new place, size, revision, expiry and the blob hash of its record; the new index entries say the same |
| `Compaction.SegmentedLog.Unlink` | crates/engine/src/log/reclaim.rs:134-155 | exactly the removable inputs disappear |
| `Compaction.SegmentedLog.FindFullLevel` | crates/engine/src/log/mod.rs:1108-1125 | the lowest level with at least fanout runs, none exactly when every level has fewer |
| `Compaction.SegmentedLog.WriteMerged` | crates/engine/src/log/reclaim.rs:49-165 | the merged file is complete when it becomes visible; a crash before the rename, after it, or with any of the inputs unlinked recovers every key's latest record |
| `Compaction.SegmentedLog.MergeLevel` | crates/engine/src/log/mod.rs:1106-1195 | one fewer run at least, nothing about any key changes; every directory mixing the files of two neighbouring states of the disk recovers every key's latest record; when the merged file cannot be opened every key is still readable through the open handles |
| `Compaction.SegmentedLog.Cascade` | crates/engine/src/log/mod.rs:1106-1195 | terminates with every level below fanout; keys, revisions, expiries, blobs and latest records unchanged; a crash at any point recovers every latest record |
| `Compaction.SegmentedLog.Reclaim` | crates/engine/src/log/mod.rs:1073-1219 | the same for a whole reclaim, from the active seal to the fresh active file: a crash at any point recovers every latest record and, if an open fails, every key is readable through the open handles |
| `SegmentState.RecoversLatest` | crates/engine/src/log/recover.rs:31-114 | reopening any such directory gives every live key its latest record, its revision and, behind a separated value, its blob hash, so that its blob is counted and not swept |
| `SegmentState.MergeCore` | crates/engine/src/log/mod.rs:1106-1195 | a merge keeps every invariant of the segmented log |
| `SegmentState.MergeSafe` | crates/engine/src/log/reclaim.rs:123-155 | from the state before the rename to the state after the unlinks, every directory a crash can leave recovers every key's latest record |
| `SegmentState.ShutdownKeys` | crates/engine/src/log/recover.rs:31-126 | sealing the active file: the keys that come back are exactly the live ones if and only if no footer already there lists a key that is gone |
| `SegmentState.ShutdownExpiry` | crates/engine/src/log/recover.rs:117-125 | the expiry that comes back is the current one for keys of the active file, and the one recorded with the footer of their file for the others |
| `SegmentState.ShutdownBlobs` | crates/engine/src/log/recover.rs:117-125 | every blob hash comes back from the footers |
| `SegmentState.RewriteBound` | crates/engine/src/log/mod.rs:1106-1195 | the current version of a key has been copied at most log_fanout(level-0 runs) times |
| `SegmentState.ReadsBack` | crates/engine/src/log/mod.rs:634-643 | every entry points into an open file whose bytes at its place are the encoding of the key's latest record |
| `Compaction.Run` | crates/engine/src/log/mod.rs:918-959 | any run of puts, deletes, TTL updates, rotations and reclaims: when nothing fails the log is valid and means the last record put under each key not deleted since; a crash inside operation i, at any point of it, leaves a directory that recovers what the operations before it mean, with it or without it |
| `Compaction.CrashRestores` | crates/engine/src/log/recover.rs:31-161 | reopening after a crash inside operation i of a run finds every key of the meaning before or after it with its record, revision and blob hash |
| `Compaction.Execute` | crates/engine/src/log/mod.rs:273-1219 | one operation: its meaning when it succeeds, when it can fail, and that a crash at any point of it recovers the meaning before or after it |
| `Compaction.DeletedKeyReturns` | crates/engine/src/log/mod.rs:851-866 | a run that fails: put, rotate, delete, seal; the key is back after reopening |
| `Compaction.ExpiryForgotten` | crates/engine/src/log/mod.rs:851-866 | a run that fails: put, rotate, change the expiry, seal; the old expiry is back after reopening |
| `LoggedItems.Perform` | crates/engine/src/store.rs:1208-1215 | read off files and index, one operation on the segments does to the items of a namespace what the store's command does; a reclaim changes none |
| `LoggedItems.RunItems` | crates/engine/src/store.rs:1208-1215 | after any run of operations on the segments, reclaims included, the items read off files and index are those the store's specification gives |
| `LoggedItems.PutItem` | crates/engine/src/store.rs:566-582 | the record a put writes stands for the value, metadata, expiry and revision it was given |
| `Cache.MemCache.constructor` | crates/engine/src/cache.rs:47-61 | an empty cache that satisfies the accounting invariants, with room for one ghost per 640 bytes but at least 64 |
| `Cache.MemCache.Lookup` | crates/engine/src/cache.rs:66-90 | returns the cached item unless expired, marks it hot; an expired one is dropped |
| `Cache.MemCache.TryUpdate` | crates/engine/src/cache.rs:95-121 | overwrites exactly when present; the entry is charged its key, value and metadata bytes, at least one; all cached keys and values together are then within the byte budget |
| `Cache.MemCache.Overwrite` | crates/engine/src/cache.rs:136-152 | the item is replaced and hot, or was evicted; everything else was there before |
| `Cache.MemCache.Insert` | crates/engine/src/cache.rs:123-176 | the entry is charged its key, value and metadata bytes, at least one; all cached keys and values together are within the byte budget; a ghost key enters the main queue, another new key the small one; nothing appears that was not there |
| `Cache.MemCache.Remove` | crates/engine/src/cache.rs:178-192 | exactly one key goes |
| `Cache.MemCache.RemoveByPrefix` | crates/engine/src/cache.rs:197-227 | exactly the keys with the prefix go |
| `Cache.MemCache.NoteStale` | crates/engine/src/cache.rs:184-191 | when the counter of stale slots passes half of the queues, both queues keep exactly the slots of cached keys, in order, and the counter restarts; otherwise only the counter grows |
| `Cache.MemCache.Retain` | crates/engine/src/cache.rs:230-239 | the slots of cached keys, in order |
| `Cache.MemCache.SweepExpired` | crates/engine/src/cache.rs:242-267 | exactly the expired entries go, and are counted |
| `Cache.MemCache.GhostInsert` | crates/engine/src/cache.rs:282-297 | the oldest ghosts are forgotten in order, only as many as the bound demands |
| `Cache.MemCache.EvictSmall` | crates/engine/src/cache.rs:315-345 | the first cold entry of the small queue is evicted to the ghosts; the hot ones before it move to the main queue in order, cooled |
| `Cache.MemCache.EvictMain` | crates/engine/src/cache.rs:347-374 | the first cold entry of the main queue is evicted, or the first one after a full round of hot ones; terminates |
| `Cache.MemCache.EvictOne` | crates/engine/src/cache.rs:314-375 | exactly one entry goes; none only from an empty cache |
| `Cache.MemCache.EvictToLimit` | crates/engine/src/cache.rs:305-311 | always ends within budget, changes nothing when already there, and the last entry it evicts had to go |
| `Cache.SizeRemove` | crates/engine/src/cache.rs:136-150 | the charged bytes of a map split off any entry, so saturating subtraction never saturates |
| `Cache.ChargeBounds` | crates/engine/src/cache.rs:123-132 | what is charged bounds the bytes of all cached keys and values and the number of entries |
| `Store.CacheKeyInjective` | crates/engine/src/store.rs:214-241 | composite keys determine namespace and key, and a namespace prefix matches exactly its own |
| `Store.CoherentFollows` | crates/engine/src/store.rs:244-274 | one logged change with its cached copy updated or dropped keeps the cache in step with the logs |
| `Store.CoherentFlush` | crates/engine/src/store.rs:1294-1303 | flushing a namespace evicts exactly its own entries |
| `Store.ShardStore.Read` | crates/engine/src/store.rs:439-487 | a read through the cache returns what the log alone would, and deletes an expired key the same way; what was read is cached when it fits, and the inline variant caches nothing |
| `Store.ShardStore.LookupAll` | crates/engine/src/store.rs:503-532 | hits are right, and the misses and expired keys left over are exactly what the log says |
| `Store.ShardStore.MGet` | crates/engine/src/store.rs:492-564 | all results in order as the log alone would give them; same lazy deletes |
| `Store.ShardStore.Write` | crates/engine/src/store.rs:566-605 | one key is written to the log and the cache follows; the new item is cached when it fits |
| `Store.ShardStore.MSet` | crates/engine/src/store.rs:609-630 | the batch applied in order, duplicates included, cache in step |
| `Store.ShardStore.Del` | crates/engine/src/store.rs:632-668 | the keys go; the count is the number of distinct live keys in the list |
| `Store.ShardStore.Exists` | crates/engine/src/store.rs:670-681 | live occurrences in the list |
| `Store.ShardStore.Set` | crates/engine/src/store.rs:371-436 | unconditional and conditional writes as the uncached store does them |
| `Store.ShardStore.Expire` | crates/engine/src/store.rs:683-716 | as uncached |
| `Store.ShardStore.Persist` | crates/engine/src/store.rs:718-751 | as uncached |
| `Store.ShardStore.GetEx` | crates/engine/src/store.rs:753-822 | as uncached |
| `Store.ShardStore.TtlOf` | crates/engine/src/store.rs:347-366 | as uncached |
| `Store.ShardStore.GetSet` | crates/engine/src/store.rs:835-856 | as uncached |
| `Store.ShardStore.GetDel` | crates/engine/src/store.rs:858-876 | as uncached |
| `Store.ShardStore.DelRev` | crates/engine/src/store.rs:957-974 | as uncached |
| `Store.ShardStore.Incr` | crates/engine/src/store.rs:982-1065 | one attempt as uncached: missing counts as zero, bad numbers and overflow are refused, expiry kept |
| `Store.ShardStore.Flush` | crates/engine/src/store.rs:1294-1324 | the log is empty and exactly the namespace's entries left the cache |
| `Store.ShardStore.Sweep` | crates/engine/src/store.rs:1110-1112 | sweeping the cache is invisible |
| `Store.Execute` | crates/engine/src/store.rs:439-974 | every command replies and leaves the logs as the uncached specification does; bad namespaces are refused |
| `Store.Run` | crates/engine/src/store.rs:67-82 | for every run of requests, every clock and every cache size, all replies and the final logs equal those without a cache, and the cached keys, values and metadata take no more bytes than the cache was given |
| `StoreLaws.GetReplies` | crates/engine/src/store.rs:439-487 | GET finds an item only before its expiry, and no later GET of any key can tell that it ran |
| `StoreLaws.TtlReplies` | crates/engine/src/store.rs:347-366 | TTL replies missing, no expiry, or the time between now and the expiry GET shows |
| `StoreLaws.SetThenGet` | crates/engine/src/store.rs:566-605 | after SET, GET finds exactly this value, metadata and expiry until it expires, under a new revision; no other key looks different; a TTL that overflows changes nothing |
| `StoreLaws.KeepTtlExact` | crates/engine/src/store.rs:569-573 | a SET that keeps the TTL is visible if and only if its key is not lingering in the log past its expiry |
| `StoreLaws.KeepTtlLosesWrite` | crates/engine/src/store.rs:569-573 | a run that fails: SET with a TTL, then after the deadline SET keeping it; GET does not find the new value |
| `StoreLaws.SetIfExact` | crates/engine/src/store.rs:371-436 | SETNX, SETXX and SETREV write exactly when the GET before missed, hit, or hit that revision, and reply the revision GET then shows |
| `StoreLaws.ExpireLaw` | crates/engine/src/store.rs:683-716 | EXPIRE by ms makes TTL reply ms, GET miss from now + ms on, and changes nothing else |
| `StoreLaws.PersistLaw` | crates/engine/src/store.rs:718-751 | PERSIST makes TTL reply no expiry and changes nothing else |
| `StoreLaws.GetExLaw` | crates/engine/src/store.rs:753-822 | GETEX replies the GET before and sets the expiry it was given |
| `StoreLaws.GetSetLaw` | crates/engine/src/store.rs:835-856 | GETSET replies the GET before and sets the value without expiry or metadata |
| `StoreLaws.GetDelLaw` | crates/engine/src/store.rs:858-876 | GETDEL replies the GET before and the key is gone |
| `StoreLaws.DelRevLaw` | crates/engine/src/store.rs:957-974 | DELREV deletes exactly when the GET before hit that revision |
| `StoreLaws.IncrLaw` | crates/engine/src/store.rs:982-1073 | INCR replies and stores the number the GET before shows plus the delta, zero when missing, expiry kept; text that is no number and sums out of range are refused and change nothing |
| `StoreLaws.IncrTwice` | crates/engine/src/store.rs:982-1073 | two INCRs leave what one INCR of their sum leaves |
| `StoreLaws.MGetLaw` | crates/engine/src/store.rs:492-564 | MGET replies the GETs of its keys in order |
| `StoreLaws.ExistsLaw` | crates/engine/src/store.rs:670-681 | EXISTS counts the GETs that hit, repeated keys included |
| `StoreLaws.DelLaw` | crates/engine/src/store.rs:632-668 | DEL replies the number of distinct keys whose GET hit; none is found again |
| `StoreLaws.MSetLaw` | crates/engine/src/store.rs:609-630 | after MSET each key shows the value of its last pair, without expiry or metadata |
| `StoreLaws.FlushLaw` | crates/engine/src/store.rs:1294-1324 | after FLUSH no key of its namespace is found and no other namespace looks different |
| `StoreLaws.NamespaceLaw` | crates/engine/src/store.rs:54-60 | a request is refused exactly when its namespace is empty, longer than 64 bytes or holds a byte that is no letter, digit, underscore or dash |
| `StoreLaws.RevisionsName` | crates/engine/src/log/mod.rs:241-247 | a revision names one value: after any command each item has the value, metadata and revision it had, or a revision above every one issued before |
| `Glob.MatchBracket` | crates/engine/src/store.rs:1408-1444 | the class scan agrees with the parsed class: ranges, negation, leading `]`, and an unclosed `[` as a literal |
| `Glob.FindMeta` | crates/engine/src/store.rs:1347 | position of the first metacharacter |
| `Glob.MatchLoop` | crates/engine/src/store.rs:1368-1398 | the loop terminates and computes the backtracking relation |
| `Glob.GlobMatch` | crates/engine/src/store.rs:1344-1403 | what it accepts is a match; on keys without a star byte it accepts exactly the matches |
| `Glob.NewStar` | crates/engine/src/store.rs:1387-1390 | a new star makes the previous one redundant |
| `Glob.LoopExact` | crates/engine/src/store.rs:1368-1398 | on keys without a star byte the loop decides exactly what is left to try |
| `Glob.LoopSound` | crates/engine/src/store.rs:1368-1398 | whatever the loop accepts is a match |
| `Glob.PrefixMatch` | crates/engine/src/store.rs:1349-1363 | a literal prefix has to match byte by byte |
| `Glob.CulpritFails` | crates/engine/src/store.rs:1384-1386 | for every key with a star byte, a pattern that matches it and that the matcher rejects |
| `Glob.GlobExact` | crates/engine/src/store.rs:1344-1403 | for a key, the matcher agrees with the meaning on every pattern if and only if the key has no star byte |
| `GlobMeaning.PlainMeans` | crates/engine/src/store.rs:1349-1363 | a pattern without metacharacters matches exactly itself |
| `GlobMeaning.StarMeans` | crates/engine/src/store.rs:1387-1390 | a star stands for any bytes |
| `GlobMeaning.ClassMeans` | crates/engine/src/store.rs:1408-1444 | `[cs]` stands for exactly one of the bytes cs, a `]` in first place included |
| `GlobMeaning.NegatedMeans` | crates/engine/src/store.rs:1408-1444 | `[^cs]` and `[!cs]` stand for exactly one byte that is none of cs |
| `GlobMeaning.RangeMeans` | crates/engine/src/store.rs:1408-1444 | `[a-b]` stands for exactly one byte from a to b |
| `GlobMeaning.UnclosedMeans` | crates/engine/src/store.rs:1408-1444 | a bracket that is never closed stands for itself |
| `Paging.ScanIncreasing` | crates/engine/src/log/index.rs:176-216 | whatever happens between pages, a scan yields in strictly increasing order: nothing twice |
| `Paging.ScanCovers` | crates/engine/src/log/index.rs:176-216 | a key eligible at every page of its shard is yielded |
| `Paging.ScanSound` | crates/engine/src/log/index.rs:176-216 | whatever is yielded comes from a page of its shard on which it was eligible and past the cursor when that page was taken |
| `Paging.ExactlyOnce` | crates/engine/src/store.rs:1239-1283 | a key present, unexpired and matching throughout a completed scan is yielded exactly once |
| `Paging.StaticTerminates` | crates/server/src/dispatch.rs:569-650 | over shards that do not change a scan takes at most one page per key and shard |
| `Paging.CursorsExact` | crates/server/src/dispatch.rs:592-650 | shard-tagged cursors name their place on every shard if and only if there are at most 256 shards |
| `Paging.DrivenCompletes` | crates/server/src/dispatch.rs:592-650 | a client that follows the cursors from `0` to `0` completes a scan |
| `Paging.DrivenExact` | crates/server/src/dispatch.rs:592-650 | so on up to 256 shards every stable (shard, key) is yielded exactly once |
| `Paging.NeverDriven` | crates/server/src/dispatch.rs:592-650 | on more than 256 shards no scan a client drives ever ends |
| `Paging.AllKeys` | crates/server/src/cross_shard.rs:292-309 | the page loop terminates and collects exactly the eligible keys, ascending |
| `FanOut.BucketByShard` | crates/server/src/dispatch.rs:404-414 | bucket s holds exactly the elements of shard s in the original order |
| `FanOut.Gather` | crates/server/src/dispatch.rs:724-742 | a reply fills exactly the positions of its shard's keys |
| `FanOut.DispatchMGet` | crates/server/src/dispatch.rs:653-750 | each result is the key looked up on its own shard, in the original order; each shard deletes what it found expired |
| `FanOut.MGetUnified` | crates/server/src/dispatch.rs:653-750 | those lazy deletes are the ones of the whole list on one store |
| `FanOut.DispatchMSet` | crates/server/src/dispatch.rs:752-836 | each shard applies its pairs in order |
| `FanOut.MSetUnified` | crates/server/src/dispatch.rs:752-836 | together they leave what the whole list applied in order to one store leaves, duplicates included |
| `FanOut.DispatchDel` | crates/server/src/dispatch.rs:838-918 | each shard deletes its keys and the counts are added up |
| `FanOut.DelUnified` | crates/server/src/dispatch.rs:838-918 | together they delete what the whole list deletes on one store |
| `FanOut.DelCount` | crates/server/src/dispatch.rs:838-918 | the total is the count of the whole list on one store |

## Left out

- Durability.NamespaceLog.PutFull: the clock is assumed to stay below 2^64 - 1, where the source would overflow; the same holds for PutMany, Tombstone, TtlUpdate, Flush and the step machine.
- Durability.NamespaceLog.PutMany: a blob write that fails inside a batch is in the step machine (`LogBlobs.ExactStep`) and not here.
- DurableRuns.Run: the namespace has one log file; rotation and compaction are in `Compaction.Run`.
- Durability.NamespaceLog.Append: appends are assumed to succeed; the poison flag after a failed append is not modelled.
- Compaction.SegmentedLog.Reclaim: failing reads and renames are not modelled, only crashes, failing unlinks, failing opens of a merged file and running out of file ids; after such a failure the active file already carries its footer, as in the source, and the contract promises readability and recoverability but no further writes.
- Compaction.SegmentedLog.UpdateTtl: crash recovery is stated for records and revisions; expiries are covered for one segment by `LogReplay` and after a clean shutdown by `Compaction.SegmentedLog.SealForShutdown`.
- Compaction.Run: recovery promises that no live key is lost; a deleted key can be back, as `Compaction.DeletedKeyReturns` shows. Records past the last fsync and torn appends are in `DurableRuns.Run`. An unlink that a later crash undoes is a run in which that unlink failed.
- Store.ShardStore.Incr: one attempt; the source tries again when another write came in between.
- LogIncr.NoLostIncrement: a call that tries again is a further attempt with its own task; counter values are stored inline, as a decimal number is under any threshold above its 20 bytes.
- LogIncr.IncrRun: the same.
- StoreLaws.IncrLaw: one attempt, as Store.ShardStore.Incr.
- Durability.NamespaceLog.ReadValue: a separated value is promised up to its content hash; equal content needs the hash to be free of collisions.
- Store.Execute: commands are atomic here; the cap on open namespaces, watch notifications and the conversion of expiries to instants are not modelled, and metadata is an opaque value that round-trips; records over 32 bits, which the log refuses, are refused in `Durability` and not here.
- FanOut.DispatchMSet: shards are always reachable; the shortcut for requests that are entirely local has the same effect and is modelled for MGET only.
- LogReplay.ReplayAgreesWithRuntime: flush and reclaim bodies are single steps of the machine; what they do to files is in `Compaction`.
- LogLocks.LockInvRun: the rotation that a put, a conditional put or a batch starts when the active file is full, beside other writers, is no event of the step machine; rotation by itself is `Compaction.SegmentedLog.RotateActive`.
- LogBlobs.RefcountsExact: runs in which a batch forgets references are excluded here; `LogBlobs.ExactStep` says that exactly those break the counts, and `LogBlobs.ReferencedBlobsExist` holds for them too.
- Paging.CursorsExact: a cursor of a single byte 2, which no scan returns, restarts the scan in the model and is out of bounds in the source.
- Watch subscriptions and catch-up from a revision.
- Flush at the level of files, and the level map entries it leaves behind; the rewrite bound is for runs without flush.
- io_uring, buffer pools, directory fsync, RESP and HTTP parsing, TLS, metrics, configuration.
- The hand-off protocol around freeze, seal and resume.
- The TypeScript clients and the benchmark crate.
