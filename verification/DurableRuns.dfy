/** Whole runs of a namespace: any run from empty survives any power loss, and three runs
    that show where the promise ends. */
module DurableRuns {
  import opened Types
  import opened Records
  import opened NamespaceIndex
  import opened Recover
  import opened LogMachine
  import opened LogReplay
  import opened LogBlobs
  import opened CrashState
  import opened ValueStores
  import opened Durability

  datatype NsOp =
    | PutOp(key: Bytes, value: Bytes, meta: Bytes, expires: Option<U64>, clock: U64)
    | PutManyOp(kvs: seq<(Bytes, Bytes)>, clocks: seq<U64>)
    | DeleteOp(key: Bytes, clock: U64)
    | ExpireOp(key: Bytes, expires: Option<U64>, clock: U64)
    | SyncOp
    | FlushOp(clock: U64)

  /** The revisions the operation may need are below 2^64. */
  predicate HasRoom(last: nat, op: NsOp) {
    last < U64_MAX && (op.PutManyOp? ==> |op.clocks| == |op.kvs| && Roomy(last, op.clocks))
  }

  /** The whole effect of an operation on the namespace, and on the last revision. */
  ghost predicate Effect(hash: Bytes -> Hash, threshold: nat, op: NsOp, s: Ns, last: nat, s': Ns, last': U64) {
    match op
    case PutOp(k, v, m, e, c) =>
      var p := StoredPair(hash, threshold, k, v, m, e);
      last' == NextStamp(last, c)
      && if p.Ok() then s' == AfterWrite(s, [p.ToRecord(last')]) else s' == Took(s, if p.separated then [hash(v)] else [])
    case PutManyOp(kvs, _) =>
      last' >= last
      && if forall i :: 0 <= i < |kvs| ==> StoredPair(hash, threshold, kvs[i].0, kvs[i].1, [], None).Ok()
         then exists rs :: Built(hash, threshold, kvs, rs, last) && s' == AfterWrite(s, rs)
         else exists hs :: s' == Took(s, hs)
    case DeleteOp(k, c) =>
      if k in s.idx.entries then last' == NextStamp(last, c) && s' == AfterWrite(s, [TombstoneRecord(k, last')])
      else last' == last && s' == s.(idx := s.idx.Remove(k))
    case ExpireOp(k, e, c) =>
      last' == NextStamp(last, c)
      && s' == if HEADER_LEN + |k| <= U32_MAX then AfterWrite(s, [TtlRecord(k, e, last')]) else s
    case SyncOp => last' == last && s' == SyncEnd(s, |s.log|)
    case FlushOp(c) => last' == NextStamp(last, c) && s' == FLUSHED
  }

  method Execute(n: NamespaceLog, op: NsOp)
    requires n.Valid() && HasRoom(n.last, op)
    modifies n, n.index, n.values
    ensures n.Valid() && Effect(n.values.hash, n.threshold, op, old(n.State()), old(n.last), n.State(), n.last)
  {
    hide Safe, Sound, Roomy, AfterWrite, Took, Built, Collected, TombstoneRecord, TtlRecord, Pair.ToRecord;
    match op {
      case PutOp(k, v, m, e, c) => var _ := n.PutFull(k, v, m, e, c);
      case PutManyOp(kvs, cs) =>
        ghost var rs;
        var ok;
        ok, rs := n.PutMany(kvs, cs);
      case DeleteOp(k, c) => var _ := n.Tombstone(k, c);
      case ExpireOp(k, e, c) => var _ := n.TtlUpdate(k, e, c);
      case SyncOp => n.Sync();
      case FlushOp(c) => var _ := n.Flush(c);
    }
  }

  /** What a power loss must leave: every key of the kept log readable, before and after the
      orphan sweep of the next open. */
  ghost predicate Survives(s: Ns, kept: seq<Record>) {
    && BlobsPresent(kept, s.blobs.onDisk)
    && forall s' :: Reopened(s', kept, s.blobs.onDisk) ==> BlobsPresent(kept, s'.blobs.onDisk)
  }

  lemma SafeSurvives(crc: Crc, s: Ns, t: nat, kept: seq<Record>)
    requires Safe(s, []) && Loses(crc, s, t, kept)
    ensures Survives(s, kept)
  {
    hide Safe, Loses, Reopened, BlobsPresent;
    CrashImage(crc, s, [], t, kept);
    forall s' | Reopened(s', kept, s.blobs.onDisk) ensures BlobsPresent(kept, s'.blobs.onDisk) {
      SweepKeeps(s', kept, s.blobs.onDisk);
    }
  }

  /** Deferred deletion is crash-safe: after any run from an empty namespace and any power
      loss after any of its operations that keeps what was synced, every recovered key has its
      blob and the sweep spares it. The run stops early only when revisions run out. */
  method Run(crc: Crc, hash: Bytes -> Hash, threshold: nat, ops: seq<NsOp>)
    returns (n: NamespaceLog, done: nat, ghost states: seq<Ns>, ghost lasts: seq<U64>)
    ensures done <= |ops| && (done < |ops| ==> !HasRoom(n.last, ops[done])) && |states| == |lasts| == done + 1
    ensures Traced(hash, threshold, ops[..done], states, lasts) && states[done] == n.State() && lasts[done] == n.last
    ensures forall i, t, kept :: 0 <= i <= done && Loses(crc, states[i], t, kept) ==> Survives(states[i], kept)
  {
    hide Safe, Sound, Loses, Survives, HasRoom, Effect, Traced, AllSafe;
    n := new NamespaceLog(crc, hash, threshold);
    done, states, lasts := 0, [FLUSHED], [0];
    TracedNone(hash, threshold, ops[..0]);
    while done < |ops| && HasRoom(n.last, ops[done])
      invariant done <= |ops| && n.Valid() && fresh(n) && fresh(n.index) && fresh(n.values)
      invariant n.values.hash == hash && n.threshold == threshold && |states| == |lasts| == done + 1
      invariant Traced(hash, threshold, ops[..done], states, lasts) && states[done] == n.State() && lasts[done] == n.last && AllSafe(states)
    {
      Execute(n, ops[done]);
      TracedNext(hash, threshold, ops, done, states, lasts, n.State(), n.last);
      states, lasts := states + [n.State()], lasts + [n.last];
      done := done + 1;
    }
    forall i, t, kept | 0 <= i <= done && Loses(crc, states[i], t, kept) ensures Survives(states[i], kept) {
      SafeAt(states, i);
      SafeSurvives(crc, states[i], t, kept);
    }
  }

  /** The states of a run from an empty namespace, one operation after the other. */
  ghost predicate Traced(hash: Bytes -> Hash, threshold: nat, ops: seq<NsOp>, states: seq<Ns>, lasts: seq<U64>) {
    && |states| == |lasts| == |ops| + 1 && states[0] == FLUSHED && lasts[0] == 0
    && forall i :: 0 <= i < |ops| ==> Effect(hash, threshold, ops[i], states[i], lasts[i], states[i + 1], lasts[i + 1])
  }

  ghost predicate AllSafe(states: seq<Ns>) {
    forall i :: 0 <= i < |states| ==> Safe(states[i], [])
  }

  lemma SafeAt(states: seq<Ns>, i: nat)
    requires AllSafe(states) && i < |states|
    ensures Safe(states[i], [])
  {
  }

  lemma TracedNone(hash: Bytes -> Hash, threshold: nat, ops: seq<NsOp>)
    ensures ops == [] ==> Traced(hash, threshold, ops, [FLUSHED], [0])
    ensures AllSafe([FLUSHED])
  {
    hide Safe;
    FlushedSafe();
  }

  lemma TracedNext(hash: Bytes -> Hash, threshold: nat, ops: seq<NsOp>, n: nat, states: seq<Ns>, lasts: seq<U64>, s: Ns, last: U64)
    requires n < |ops| && Traced(hash, threshold, ops[..n], states, lasts) && AllSafe(states) && Safe(s, [])
    requires |states| == |lasts| == n + 1 && Effect(hash, threshold, ops[n], states[n], lasts[n], s, last)
    ensures Traced(hash, threshold, ops[..n + 1], states + [s], lasts + [last]) && AllSafe(states + [s])
  {
    hide Effect, Safe;
    assert forall i :: 0 <= i < n ==> ops[..n + 1][i] == ops[..n][i];
  }

  /** A full record of `k`: separated with hash `h`, or inline. */
  predicate Stores(r: Record, k: Bytes, h: Option<Hash>) {
    r.IsFull() && r.Fits() && r.key == k && r.Blob() == h
  }

  lemma StoredIs(p: Pair, t: U64)
    requires p.Ok()
    ensures Stores(p.ToRecord(t), p.key, if p.separated then Some(p.stored) else None)
  {
  }

  lemma StoresHashes(r: Record, k: Bytes, h: Option<Hash>)
    requires Stores(r, k, h)
    ensures RecordHashes([r]) == if h.Some? then [h.value] else []
    ensures forall idx: Index :: Dead(idx, r) == Get(idx.blobs, k)
  {
    assert [r][1..] == [];
  }

  lemma PutEffect(s: Ns, r: Record, k: Bytes, h: Option<Hash>)
    requires Stores(r, k, h)
    ensures var s' := AfterWrite(s, [r]);
            && s'.log == s.log + [r] && s'.synced == s.synced
            && s'.blobs == Release(if h.Some? then TakeRef(s.blobs, h.value) else s.blobs, Get(s.idx.blobs, k))
            && forall j :: Get(s'.idx.blobs, j) == if j == k then h else Get(s.idx.blobs, j)
  {
    hide RunRecord, TakeRef, Release, Record.Blob, Record.IsFull, Record.IsTombstone, Record.IsTtlUpdate;
    StoresHashes(r, k, h);
    AfterWriteOne(s, r, h);
    RecordBlobs(s.idx, TotalSize(s.log), r);
    FullOtherwise(r);
  }

  /** A large value overwritten inline: its blob is queued and nothing references it. */
  lemma Overwritten(k: Bytes, a: Record, b: Record, h: Hash)
    requires Stores(a, k, Some(h)) && Stores(b, k, None)
    ensures var s := AfterWrite(AfterWrite(FLUSHED, [a]), [b]);
            s.log == [a, b] && s.blobs.Count(h) == 0 && h in s.blobs.pending && s.blobs.onDisk == {h}
  {
    hide Stores, AfterWrite;
    PutEffect(FLUSHED, a, k, Some(h));
    var s1 := AfterWrite(FLUSHED, [a]);
    PutEffect(s1, b, k, None);
    assert Get(s1.idx.blobs, k) == Some(h) && Get(FLUSHED.idx.blobs, k) == None;
    assert s1.blobs == TakeRef(FLUSHED.blobs, h);
    assert [] + [a] + [b] == [a, b];
  }

  lemma StaleCount(s: Ns, k: Bytes, a: Record, b: Record, h: Hash, onDisk: set<Hash>)
    requires Stores(a, k, Some(h)) && Stores(b, k, None) && Reopened(s, [a, b], onDisk)
    ensures s.blobs.Count(h) > 0
  {
    hide Replay, Holders, Record.Blob, Record.IsFull, Record.IsTombstone, Record.Fits;
    var log := [a, b];
    assert log[..1] == [a] && [a][..0] == [];
    FullOtherwise(a);
    FullOtherwise(b);
    assert LastSeparated(log, k) == Some(h);
    ReplaySidecar(log, k);
    HeldBy(s.idx.blobs, k);
  }

  /** A second put of content that is counted but gone leaves a live key without its blob. */
  lemma Dangling(s: Ns, k: Bytes, c: Record, h: Hash)
    requires Stores(c, k, Some(h)) && s.blobs.Count(h) > 0 && h !in s.blobs.onDisk
    ensures var s' := AfterWrite(s, [c]); Named(s'.log, h) && h !in s'.blobs.onDisk
  {
    hide AfterWrite, Current, RunRecord, Record.Blob, Record.IsFull, Record.IsTombstone, Record.IsTtlUpdate;
    PutEffect(s, c, k, Some(h));
    ReleaseKeeps(TakeRef(s.blobs, h), Get(s.idx.blobs, k));
    CurrentSnoc(s.log, c);
    RecordBlobs(Current(s.log), TotalSize(s.log), c);
    FullOtherwise(c);
    assert Get(Current(s.log + [c]).blobs, k) == Some(h);
  }

  /** Put large, overwrite inline, sync: the blob's file is gone. */
  method OverwriteAndSync(crc: Crc, hash: Bytes -> Hash, threshold: nat, k: Bytes, large: Bytes, small: Bytes)
    returns (n: NamespaceLog, ghost a: Record, ghost b: Record)
    requires |small| < threshold <= |large| && HEADER_LEN + |k| + |small| <= U32_MAX && HEADER_LEN + |k| + 16 <= U32_MAX
    ensures fresh(n) && fresh(n.index) && fresh(n.values) && n.Valid() && n.crc == crc && n.values.hash == hash && n.threshold == threshold
    ensures n.State().log == [a, b] && n.State().synced == 2 && hash(large) !in n.State().blobs.onDisk
    ensures Stores(a, k, Some(hash(large))) && Stores(b, k, None) && a.tstamp < 9 && b.tstamp < 9
  {
    hide Safe, Sound, EncodeAll, AfterWrite, Stores, Collected, Pair.ToRecord;
    n := new NamespaceLog(crc, hash, threshold);
    var t := n.PutFull(k, large, [], None, 0);
    a := Pair(k, hash(large), [], None, true).ToRecord(t.value);
    StoredIs(Pair(k, hash(large), [], None, true), t.value);
    t := n.PutFull(k, small, [], None, 0);
    b := Pair(k, small, [], None, false).ToRecord(t.value);
    StoredIs(Pair(k, small, [], None, false), t.value);
    Overwritten(k, a, b, hash(large));
    CollectedGone(n.State(), hash(large));
    n.Sync();
  }

  /** A clean restart: nothing of the log is lost. */
  method Restart(n: NamespaceLog) returns (n': NamespaceLog)
    requires n.Valid() && n.synced == |n.log| && forall i :: 0 <= i < |n.log| ==> n.log[i].tstamp < U64_MAX
    ensures fresh(n') && fresh(n'.index) && fresh(n'.values) && n'.Sane() && n'.last < U64_MAX
    ensures n'.crc == n.crc && n'.values.hash == n.values.hash && n'.threshold == n.threshold
    ensures Reopened(n'.State(), n.log, n.State().blobs.onDisk)
  {
    hide Safe, Sound, EncodeAll, Scan, Reopened, TotalSize, IsNewest, Replay;
    WholeImage(n.crc, n.log);
    SyncedPresent(n.State());
    n' := new NamespaceLog.Reopen(n.crc, n.values.hash, n.threshold, n.values.files);
    n'.Recover(n.file, n.log, TotalSize(n.log));
    ReopenedSound(n'.State(), n.log, n.State().blobs.onDisk);
    ReopenedClock(n'.State(), n.log, n.State().blobs.onDisk, n'.last);
  }

  /** The clock after a restart is the revision of some record. */
  lemma ReopenedClock(s: Ns, kept: seq<Record>, onDisk: set<Hash>, last: U64)
    requires AllFit(kept) && Reopened(s, kept, onDisk) && IsNewest(s.idx.entries, last)
    ensures last == 0 || exists i :: 0 <= i < |kept| && kept[i].tstamp == last
  {
    hide Replay, RecordAt, Current;
    if last != 0 {
      var k :| k in s.idx.entries && s.idx.entries[k].tstamp == last;
      ReplayTracks(kept);
      assert Agrees(Current(kept).At(k), s.idx.At(k));
      EntryRecord(kept, k);
      RecordAtIn(kept, s.idx.entries[k].offset);
    }
  }

  lemma {:induction false} RecordAtIn(rs: seq<Record>, offset: nat)
    requires RecordAt(rs, offset).Some?
    ensures exists i :: 0 <= i < |rs| && rs[i] == RecordAt(rs, offset).value
    decreases |rs|
  {
    if offset == 0 {
      assert rs[0] == RecordAt(rs, offset).value;
    } else {
      RecordAtIn(rs[1..], offset - rs[0].Size());
      var i :| 0 <= i < |rs[1..]| && rs[1..][i] == RecordAt(rs, offset).value;
      assert rs[i + 1] == RecordAt(rs, offset).value;
    }
  }

  /** Put large, overwrite inline, sync, restart, put the same content under another key: the
      count that replay rebuilt stands for a file that is gone, so the file is not written and
      the new key has no blob. */
  method StaleSidecarLosesBlob(crc: Crc, hash: Bytes -> Hash, threshold: nat, k: Bytes, k2: Bytes, large: Bytes, small: Bytes)
    returns (n: NamespaceLog)
    requires |small| < threshold <= |large|
    requires HEADER_LEN + |k| + |small| <= U32_MAX && HEADER_LEN + |k| + 16 <= U32_MAX && HEADER_LEN + |k2| + 16 <= U32_MAX
    ensures n.Sane() && !BlobsPresent(n.log, n.values.files.Keys)
  {
    hide Safe, Sound, EncodeAll, AfterWrite, Stores, Reopened, Named, Pair.ToRecord;
    ghost var a, b;
    var first;
    first, a, b := OverwriteAndSync(crc, hash, threshold, k, large, small);
    ghost var h, files := hash(large), first.State().blobs.onDisk;
    n := Restart(first);
    StaleCount(n.State(), k, a, b, h, files);
    ReopenedGone(n.State(), first.log, files, h);
    ghost var s := n.State();
    var t := n.PutFull(k2, large, [], None, 0);
    StoredIs(Pair(k2, h, [], None, true), t.value);
    Dangling(s, k2, Pair(k2, h, [], None, true).ToRecord(t.value), h);
  }

  lemma CollectedGone(s: Ns, h: Hash)
    requires h in s.blobs.pending && s.blobs.Count(h) == 0
    ensures h !in SyncEnd(s, |s.log|).blobs.onDisk
  {
  }

  lemma WholeImage(crc: Crc, log: seq<Record>)
    requires AllFit(log)
    ensures EncodeAll(crc, log)[..TotalSize(log)] == EncodeAll(crc, log) && Scan(crc, EncodeAll(crc, log)) == log
  {
    hide EncodeAll, Scan;
    ScanAll(crc, log);
  }

  lemma SyncedPresent(s: Ns)
    requires Safe(s, []) && s.synced == |s.log|
    ensures BlobsPresent(s.log, s.blobs.onDisk) && AllFit(s.log)
  {
    hide Named, Tracks, Holders;
    assert s.log[..|s.log|] == s.log;
  }

  lemma ReopenedGone(s: Ns, kept: seq<Record>, onDisk: set<Hash>, h: Hash)
    requires Reopened(s, kept, onDisk) && h !in onDisk
    ensures h !in s.blobs.onDisk
  {
    hide Replay;
  }

  /** Writes that land one after the other. */
  ghost function Writes(s: Ns, ws: seq<seq<Record>>): Ns {
    if ws == [] then s else AfterWrite(Writes(s, ws[..|ws| - 1]), ws[|ws| - 1])
  }

  ghost predicate WritesFit(ws: seq<seq<Record>>) {
    forall i :: 0 <= i < |ws| ==> AllFit(ws[i])
  }

  lemma {:induction false} WritesKeepWindow(s: Ns, ws: seq<seq<Record>>)
    requires Safe(s, []) && ExactSidecar(s) && WritesFit(ws)
    ensures var s' := Writes(s, ws);
            Safe(s', []) && ExactSidecar(s') && Window(s', |s.log|, |s.blobs.pending|) && QueuedWereNamed(s', |s.log|, |s.blobs.pending|)
            && s'.synced == s.synced
    decreases |ws|
  {
    hide Safe, Sound, ExactSidecar, Window, QueuedWereNamed, CommitAll, Took, RecordHashes, AllFit;
    SafeSound(s);
    if ws == [] {
      OpenWindow(s, []);
    } else {
      var mid, rs := Writes(s, ws[..|ws| - 1]), ws[|ws| - 1];
      WritesKeepWindow(s, ws[..|ws| - 1]);
      SafeSound(mid);
      WriteKeeps(mid, rs);
      WriteWindow(mid, rs, |s.log|, |s.blobs.pending|);
      SameSynced(mid, rs);
    }
  }

  lemma SameSynced(s: Ns, rs: seq<Record>)
    ensures AfterWrite(s, rs).synced == s.synced
  {
    hide RunAll, UnrefAll;
    CommitSplit(Took(s, RecordHashes(rs)), rs);
  }

  /** Writes that land while an fsync is awaited: collecting garbage when it returns keeps the
      namespace crash-safe if and only if every blob they queued is referenced again. */
  lemma SyncDuringWrites(s: Ns, ws: seq<seq<Record>>)
    requires Safe(s, []) && ExactSidecar(s) && WritesFit(ws)
    ensures var s', m := Writes(s, ws), |s.blobs.pending|;
            Safe(SyncEnd(s', |s.log|), []) <==> forall j :: m <= j < |s'.blobs.pending| ==> s'.blobs.Count(s'.blobs.pending[j]) > 0
  {
    hide Safe, Sound, ExactSidecar, Window, QueuedWereNamed, Writes, SyncEnd;
    WritesKeepWindow(s, ws);
    SyncedWithin(s);
    SyncEndExact(Writes(s, ws), |s.log|, |s.blobs.pending|);
  }

  lemma SyncedWithin(s: Ns)
    requires Safe(s, [])
    ensures s.synced <= |s.log|
  {
    hide Tracks, Holders, Named;
  }

  /** A large value of `k` on disk, then another record; then `k` is overwritten inline. */
  lemma RacedAway(s: Ns, k: Bytes, k2: Bytes, a: Record, c: Record, b: Record, h: Hash)
    requires k != k2 && Stores(a, k, Some(h)) && Stores(c, k2, None) && Stores(b, k, None)
    requires s == AfterWrite(SyncEnd(AfterWrite(FLUSHED, [a]), 1), [c])
    ensures var s' := AfterWrite(s, [b]);
            s.log == [a, c] && s'.log == [a, c, b] && s'.synced == 1 && Named([a, c], h) && h in s'.blobs.pending && s'.blobs.Count(h) == 0
  {
    hide Stores, AfterWrite, Named;
    var s1 := AfterWrite(FLUSHED, [a]);
    PutEffect(FLUSHED, a, k, Some(h));
    assert Get(FLUSHED.idx.blobs, k) == None && s1.blobs == TakeRef(FLUSHED.blobs, h) && [] + [a] == [a];
    var s2 := SyncEnd(s1, 1);
    PutEffect(s2, c, k2, None);
    assert Get(s2.idx.blobs, k2) == None && Get(s2.idx.blobs, k) == Some(h) && [a] + [c] == [a, c];
    PutEffect(s, b, k, None);
    assert Get(s.idx.blobs, k) == Some(h) && [a, c] + [b] == [a, c, b];
    NamedByFirst(k, k2, a, c, h);
  }

  lemma NamedByFirst(k: Bytes, k2: Bytes, a: Record, c: Record, h: Hash)
    requires k != k2 && Stores(a, k, Some(h)) && Stores(c, k2, None)
    ensures Named([a, c], h)
  {
    hide Current, RunRecord, Record.Blob, Record.IsFull, Record.IsTombstone, Record.IsTtlUpdate, Record.Fits;
    CurrentSnoc([], a);
    CurrentSnoc([a], c);
    RecordBlobs(Current([]), TotalSize([]), a);
    RecordBlobs(Current([a]), TotalSize([a]), c);
    FullOtherwise(a);
    assert [] + [a] == [a] && [a] + [c] == [a, c];
    assert Get(Current([a]).blobs, k) == Some(h);
    assert Get(Current([a, c]).blobs, k) == Some(h);
  }

  lemma PrefixImage(crc: Crc, log: seq<Record>, c: nat)
    requires AllFit(log) && c <= |log|
    ensures AllFit(log[..c]) && TotalSize(log[..c]) <= TotalSize(log)
    ensures Scan(crc, EncodeAll(crc, log)[..TotalSize(log[..c])]) == log[..c]
  {
    hide Scan, Encode, EncodeAll, TotalSize;
    assert log == log[..c] + log[c..];
    TotalSizeAppend(log[..c], log[c..]);
    EncodeAllAppend(crc, log[..c], log[c..]);
    ScanAll(crc, log[..c]);
  }

  /** Put large and sync; write something; while the next fsync is awaited overwrite the large
      value inline. When the fsync returns its blob is deleted, although the overwriting
      record is not durable: a power loss then leaves the old record without its blob, and
      nothing counts as unsynced any more. */
  method SyncRace(crc: Crc, hash: Bytes -> Hash, threshold: nat, k: Bytes, k2: Bytes, large: Bytes, small: Bytes)
    returns (n: NamespaceLog, ghost t: nat, ghost kept: seq<Record>)
    requires k != k2 && |small| < threshold <= |large|
    requires HEADER_LEN + |k| + |small| <= U32_MAX && HEADER_LEN + |k| + 16 <= U32_MAX && HEADER_LEN + |k2| + |small| <= U32_MAX
    ensures n.Sane() && n.unsyncedBytes == 0 && n.synced < |n.log|
    ensures Loses(crc, n.State(), t, kept) && !BlobsPresent(kept, n.State().blobs.onDisk)
  {
    hide Safe, Sound, EncodeAll, AfterWrite, Stores, Pair.ToRecord, Named, TotalSize, Scan, Collected;
    ghost var a, c;
    n, a, c := SyncedThenWritten(crc, hash, threshold, k, k2, large, small);
    var needed := n.unsyncedBytes > 0;
    ghost var s := n.State();
    var rev := n.PutFull(k, small, [], None, 0);
    ghost var b := Pair(k, small, [], None, false).ToRecord(rev.value);
    StoredIs(Pair(k, small, [], None, false), rev.value);
    RacedAway(s, k, k2, a, c, b, hash(large));
    ghost var s' := n.State();
    n.EndSync(needed, 2);
    CollectedAt(s', 2, hash(large));
    kept, t := [a, c], TotalSize([a, c]);
    assert n.log[..2] == kept;
    PrefixImage(crc, n.log, 2);
    assert Loses(crc, n.State(), t, kept);
  }

  lemma CollectedAt(s: Ns, mark: nat, h: Hash)
    requires h in s.blobs.pending && s.blobs.Count(h) == 0
    ensures h !in SyncEnd(s, mark).blobs.onDisk
  {
  }

  /** The start of the race: a large value synced, a small one written after. */
  method SyncedThenWritten(crc: Crc, hash: Bytes -> Hash, threshold: nat, k: Bytes, k2: Bytes, large: Bytes, small: Bytes)
    returns (n: NamespaceLog, ghost a: Record, ghost c: Record)
    requires |small| < threshold <= |large| && HEADER_LEN + |k| + 16 <= U32_MAX && HEADER_LEN + |k2| + |small| <= U32_MAX
    ensures fresh(n) && fresh(n.index) && fresh(n.values) && n.Valid() && n.unsyncedBytes > 0 && n.last < 9
    ensures n.crc == crc && n.values.hash == hash && n.threshold == threshold
    ensures Stores(a, k, Some(hash(large))) && Stores(c, k2, None)
    ensures n.State() == AfterWrite(SyncEnd(AfterWrite(FLUSHED, [a]), 1), [c])
  {
    hide Safe, Sound, EncodeAll, AfterWrite, Stores, Pair.ToRecord, Collected, TotalSize;
    n := new NamespaceLog(crc, hash, threshold);
    var rev := n.PutFull(k, large, [], None, 0);
    a := Pair(k, hash(large), [], None, true).ToRecord(rev.value);
    StoredIs(Pair(k, hash(large), [], None, true), rev.value);
    OneLogged(k, a, Some(hash(large)));
    n.Sync();
    ghost var s := n.State();
    rev := n.PutFull(k2, small, [], None, 0);
    c := Pair(k2, small, [], None, false).ToRecord(rev.value);
    StoredIs(Pair(k2, small, [], None, false), rev.value);
    PutEffect(s, c, k2, None);
  }

  lemma OneLogged(k: Bytes, a: Record, h: Option<Hash>)
    requires Stores(a, k, h)
    ensures |AfterWrite(FLUSHED, [a]).log| == 1
  {
    hide AfterWrite, Stores;
    PutEffect(FLUSHED, a, k, h);
  }
}
