/** One namespace, operation by operation, with the byte file, the fsync boundary and the
    blob store; and what a power loss at any point leaves. */
module Durability {
  import opened Types
  import opened Records
  import opened NamespaceIndex
  import opened Recover
  import opened LogMachine
  import opened LogReplay
  import opened LogBlobs
  import opened CrashState
  import opened ValueStores

  const U64_MAX: nat := 0xffff_ffff_ffff_ffff

  /** Values of at least `threshold` bytes are stored as their hash. */
  function StoredPair(hash: Bytes -> Hash, threshold: nat, key: Bytes, value: Bytes, meta: Bytes, expires: Option<U64>): Pair {
    if |value| >= threshold then Pair(key, hash(value), meta, expires, true) else Pair(key, value, meta, expires, false)
  }

  datatype ReadResult = Missing | Unreadable | Value(value: Bytes, meta: Bytes)

  /** `deref`: the value field itself, or the blob it names. Whatever the files hold, a blob that
      does not hash to its name is not returned. */
  function Deref(hash: Bytes -> Hash, files: map<Hash, Bytes>, r: Record): (v: Option<Bytes>)
    ensures !Has(r.flags, VALUE_SEP) ==> v == Some(r.value)
    ensures Has(r.flags, VALUE_SEP) && v.Some? ==> hash(v.value) == r.value
    ensures v.None? <==> Has(r.flags, VALUE_SEP) && (r.Blob().None? || r.Blob().value !in files || hash(files[r.Blob().value]) != r.value)
  {
    if !Has(r.flags, VALUE_SEP) then Some(r.value)
    else if |r.value| != 16 then None
    else
      var h: Hash := r.value;
      if h !in files || hash(files[h]) != h then None else Some(files[h])
  }

  /** The bytes at an index entry are a record of this key, metadata, expiry and revision, with
      the value, or its hash when it is separated. */
  ghost predicate Shown(crc: Crc, file: Bytes, e: IndexEntry, hash: Bytes -> Hash, threshold: nat,
                        key: Bytes, value: Bytes, meta: Bytes, expires: Option<U64>, rev: U64) {
    && e.tstamp == rev && e.offset + e.size <= |file| && ReadRecord(crc, file[e.offset..e.offset + e.size]).Some?
    && var r := ReadRecord(crc, file[e.offset..e.offset + e.size]).value;
    && r.IsFull() && r.key == key && r.meta == meta && r.Expiry() == expires && r.tstamp == rev
    && (if |value| < threshold then r.value == value && r.Blob().None?
        else r.value == hash(value) && r.Blob() == Some(hash(value)))
  }

  /** Each pair of a batch that is not overwritten later in it reads back, under the revision of
      its record. */
  ghost predicate AllShown(crc: Crc, file: Bytes, idx: Index, hash: Bytes -> Hash, threshold: nat, kvs: seq<(Bytes, Bytes)>, rs: seq<Record>) {
    && |rs| == |kvs|
    && forall i :: 0 <= i < |kvs| && (forall j :: i < j < |kvs| ==> kvs[j].0 != kvs[i].0) ==>
         && kvs[i].0 in idx.entries
         && Shown(crc, file, idx.entries[kvs[i].0], hash, threshold, kvs[i].0, kvs[i].1, [], None, rs[i].tstamp)
  }

  class NamespaceLog {
    const crc: Crc
    const index: NsIndex
    const values: ValueStore
    const threshold: nat
    var file: Bytes
    var unsyncedBytes: nat
    var last: U64
    /** The records in the file, and how many of them are past the last fsync. */
    ghost var log: seq<Record>
    ghost var synced: nat

    ghost function State(): Ns
      reads this, index, values
    {
      Ns(log, synced, index.View(), values.View())
    }

    /** The parts fit together; blobs may be missing. */
    ghost predicate Sane()
      reads this, index, values
    {
      index.Valid() && values.Valid() && Sound(State(), []) && AllFit(log) && file == EncodeAll(crc, log)
    }

    ghost predicate Valid()
      reads this, index, values
    {
      Sane() && Safe(State(), []) && (unsyncedBytes == 0 ==> synced == |log|)
    }

    /** A fresh namespace. */
    constructor (crc: Crc, hash: Bytes -> Hash, threshold: nat)
      ensures Valid() && State() == FLUSHED && fresh(index) && fresh(values) && last == 0
      ensures this.crc == crc && values.hash == hash && this.threshold == threshold
    {
      this.crc, this.threshold := crc, threshold;
      index := new NsIndex();
      values := new ValueStore(hash, map[]);
      file, unsyncedBytes, last, log, synced := [], 0, 0, [], 0;
      new;
      FlushedSafe();
      hide Safe, Sound;
      assert State() == FLUSHED;
      SafeSound(State());
    }

    /** The objects of a namespace about to be recovered from what is on disk. */
    constructor Reopen(crc: Crc, hash: Bytes -> Hash, threshold: nat, files: map<Hash, Bytes>)
      requires forall h :: h in files ==> hash(files[h]) == h
      ensures fresh(index) && fresh(values) && index.Valid() && values.Valid()
      ensures this.crc == crc && values.hash == hash && this.threshold == threshold
      ensures index.View() == EMPTY && values.refs == map[] && values.pending == [] && values.files == files
    {
      this.crc, this.threshold := crc, threshold;
      index := new NsIndex();
      values := new ValueStore(hash, files);
      file, unsyncedBytes, last, log, synced := [], 0, 0, [], 0;
    }

    /** `open` after a power loss that left the first `t` bytes of the log `before`: replay,
        count one reference per sidecar entry, delete every file without a reference. */
    method Recover(image: Bytes, ghost before: seq<Record>, ghost t: nat)
      requires index.Valid() && values.Valid() && index.View() == EMPTY && values.refs == map[] && values.pending == []
      requires AllFit(before) && t <= TotalSize(before) && image == EncodeAll(crc, before)[..t]
      modifies this, index, values
      ensures index.Valid() && values.Valid() && unsyncedBytes == 0
      ensures AllFit(log) && file == EncodeAll(crc, log)
      ensures Reopened(State(), Scan(crc, image), old(values.files.Keys))
      ensures IsNewest(index.entries, last)
    {
      hide EncodeAll, Scan, Replay, TotalSize, Holders, IsNewest;
      ReplayLog(image, before, t);
      CountReferences();
      SeedClock();
      ghost var b := values.View();
      var _ := values.SweepOrphans();
      IsReopened(State(), b, Scan(crc, image));
    }

    /** The replay part of `open`: index and file are those of the surviving records. */
    method ReplayLog(image: Bytes, ghost before: seq<Record>, ghost t: nat)
      requires index.Valid() && index.View() == EMPTY
      requires AllFit(before) && t <= TotalSize(before) && image == EncodeAll(crc, before)[..t]
      modifies this`file, this`log, this`synced, this`unsyncedBytes, index
      ensures index.Valid() && unsyncedBytes == 0 && log == Scan(crc, image) && synced == |log|
      ensures AllFit(log) && file == EncodeAll(crc, log) && index.View() == Replay(EMPTY, 0, 0, log)
    {
      hide EncodeAll, Scan, Replay, TotalSize;
      ReplayTruncated(crc, before, t);
      file := ReplayActive(crc, image, 0, index);
      log := Scan(crc, image);
      synced, unsyncedBytes := |log|, 0;
    }

    /** One reference per entry of the blob sidecar. */
    method CountReferences()
      requires values.Valid() && values.refs == map[]
      modifies values
      ensures values.Valid() && values.files == old(values.files) && values.pending == old(values.pending)
      ensures forall h :: values.Count(h) == |Holders(index.blobs, h)|
    {
      var todo := index.blobs.Keys;
      ghost var done: map<Bytes, Hash> := map[];
      while todo != {}
        invariant values.Valid() && values.files == old(values.files) && values.pending == old(values.pending)
        invariant todo <= index.blobs.Keys && done == map k | k in index.blobs && k !in todo :: index.blobs[k]
        invariant forall h :: values.Count(h) == |Holders(done, h)|
        decreases todo
      {
        hide Holders;
        var k :| k in todo;
        forall h
          ensures |Holders(done[k := index.blobs[k]], h)| == |Holders(done, h)| + if index.blobs[k] == h then 1 else 0
        {
          PutHolders(done, k, Some(index.blobs[k]), h);
        }
        values.IncrRef(index.blobs[k]);
        done := done[k := index.blobs[k]];
        todo := todo - {k};
      }
      assert done == index.blobs;
    }

    /** The clock starts at the newest recovered revision. */
    method SeedClock()
      modifies this`last
      ensures IsNewest(index.entries, last)
    {
      var todo := index.entries.Keys;
      last := 0;
      while todo != {}
        invariant todo <= index.entries.Keys
        invariant forall k :: k in index.entries && k !in todo ==> index.entries[k].tstamp <= last
        invariant last == 0 || exists k :: k in index.entries && index.entries[k].tstamp == last
        decreases todo
      {
        var k :| k in todo;
        if index.entries[k].tstamp > last {
          last := index.entries[k].tstamp;
        }
        todo := todo - {k};
      }
    }

    method NextTstamp(clock: U64) returns (t: U64)
      requires last < U64_MAX
      modifies this`last
      ensures t == last == NextStamp(old(last), clock)
    {
      t := NextStamp(last, clock);
      last := t;
    }

    /** `append`: the bytes of some records go to the end of the file in one write. */
    method Append(buf: Bytes, ghost rs: seq<Record>)
      requires AllFit(log) && file == EncodeAll(crc, log) && AllFit(rs) && buf == EncodeAll(crc, rs)
      modifies this`file, this`unsyncedBytes, this`log
      ensures log == old(log) + rs && AllFit(log) && file == EncodeAll(crc, log)
      ensures unsyncedBytes == old(unsyncedBytes) + |buf|
    {
      hide EncodeAll;
      EncodeAllAppend(crc, log, rs);
      file := file + buf;
      unsyncedBytes := unsyncedBytes + |buf|;
      log := log + rs;
    }

    /** `maybe_separate`: a large value goes to the blob store before its record exists. */
    method Separate(value: Bytes) returns (h: Option<Hash>)
      requires values.Valid()
      modifies values
      ensures values.Valid() && h == if |value| >= threshold then Some(values.hash(value)) else None
      ensures values.View() == if h.Some? then TakeRef(old(values.View()), h.value) else old(values.View())
    {
      if |value| < threshold {
        return None;
      }
      var x := values.Put(value);
      return Some(x);
    }

    /** `apply_valsep_insert`: index the record; `dead` is the blob it supersedes. */
    method IndexRecord(r: Record, offset: nat) returns (dead: Option<Hash>)
      requires index.Valid() && r.IsFull()
      modifies index
      ensures index.Valid() && index.View() == RunRecord(old(index.View()), 0, offset, r)
      ensures dead == Dead(old(index.View()), r)
    {
      dead := Get(index.blobs, r.key);
      index.Insert(r.key, IndexEntry(0, offset, r.Size(), r.tstamp), r.Expiry());
      index.SetBlob(r.key, r.Blob());
    }

    method ReleaseRef(dead: Option<Hash>)
      requires values.Valid()
      modifies values
      ensures values.Valid() && values.View() == Release(old(values.View()), dead)
    {
      if dead.Some? {
        values.Unref(dead.value);
      }
    }

    /** Blob first, then the record, then the index, then the superseded reference. A record
        over the size limit is refused after its blob has been referenced. */
    method PutFull(key: Bytes, value: Bytes, meta: Bytes, expires: Option<U64>, clock: U64) returns (rev: Option<U64>)
      requires Sane() && last < U64_MAX
      modifies this, index, values
      ensures Sane() && (old(Valid()) ==> Valid())
      ensures var p := StoredPair(values.hash, threshold, key, value, meta, expires);
              && (rev.Some? <==> p.Ok()) && last == NextStamp(old(last), clock)
              && (if rev.Some? then rev.value == last && State() == AfterWrite(old(State()), [p.ToRecord(last)])
                  else State() == Took(old(State()), if p.separated then [values.hash(value)] else []))
      ensures rev.Some? ==> key in index.entries && Shown(crc, file, index.entries[key], values.hash, threshold, key, value, meta, expires, rev.value)
    {
      hide Safe, Sound, EncodeAll, Encode, TotalSize, RunRecord, Pair.ToRecord, Blobs.Unref, Blobs.Incr, Shown;
      ghost var s := State();
      var tstamp := NextTstamp(clock);
      var h := Separate(value);
      var p := if h.Some? then Pair(key, h.value, meta, expires, true) else Pair(key, value, meta, expires, false);
      TookOne(s, h);
      if HEADER_LEN + |key| + |p.stored| + |meta| > U32_MAX {
        TookKeeps(s, if h.Some? then [h.value] else []);
        return None;
      }
      var r := p.ToRecord(tstamp);
      ToRecordHashes(p, tstamp);
      SingleRecord(crc, r);
      AfterWriteOne(s, r, h);
      var offset := |file|;
      Append(Encode(crc, r), [r]);
      var dead := IndexRecord(r, offset);
      ReleaseRef(dead);
      assert State() == AfterWrite(s, [r]);
      WriteKeeps(s, [r]);
      rev := Some(tstamp);
      PairShown(crc, State(), [r], 0, values.hash, threshold, key, value, meta, expires);
    }

    /** First half of `put_many`: stamp, separate and encode the pairs in order. It stops at a
        pair that does not fit, keeping the references taken so far. */
    method BuildBatch(kvs: seq<(Bytes, Bytes)>, clocks: seq<U64>) returns (ok: bool, buf: Bytes, rs: seq<Record>, ghost taken: seq<Hash>)
      requires values.Valid() && |clocks| == |kvs| && Roomy(last, clocks)
      modifies this`last, values
      ensures values.Valid() && values.View() == TakeAll(old(values.View()), taken) && last >= old(last)
      ensures ok == forall i :: 0 <= i < |kvs| ==> StoredPair(values.hash, threshold, kvs[i].0, kvs[i].1, [], None).Ok()
      ensures ok ==> && Built(values.hash, threshold, kvs, rs, old(last)) && AllFit(rs)
                     && buf == EncodeAll(crc, rs) && taken == RecordHashes(rs) && (rs != [] ==> last == rs[|rs| - 1].tstamp)
    {
      hide EncodeAll, Encode, Pair.ToRecord, TakeRef, TakeAll, RecordHashes, Record.Fits, Built, AllFit;
      buf, rs, taken := [], [], [];
      StartBatch(crc, values.View());
      BuiltNone(values.hash, threshold, kvs[..0], last);
      for i := 0 to |kvs|
        invariant values.Valid() && values.View() == TakeAll(old(values.View()), taken) && last >= old(last)
        invariant last + (|kvs| - i) <= U64_MAX && (rs != [] ==> last == rs[|rs| - 1].tstamp)
        invariant Built(values.hash, threshold, kvs[..i], rs, old(last)) && AllFit(rs) && buf == EncodeAll(crc, rs) && taken == RecordHashes(rs)
      {
        ghost var b := values.View();
        var tstamp := NextTstamp(clocks[i]);
        var h := Separate(kvs[i].1);
        var p := if h.Some? then Pair(kvs[i].0, h.value, [], None, true) else Pair(kvs[i].0, kvs[i].1, [], None, false);
        TakeNext(old(values.View()), taken, h);
        taken := taken + if h.Some? then [h.value] else [];
        var flags := (if p.separated then VALUE_SEP else 0) + NO_EXPIRY;
        var out := EncodeInto(crc, buf, tstamp, flags, 0, p.key, p.stored, []);
        PairFits(p, tstamp, flags);
        if out.None? {
          return false, buf, rs, taken;
        }
        ToRecordHashes(p, tstamp);
        NextInBatch(crc, rs, p.ToRecord(tstamp));
        BuiltNext(values.hash, threshold, kvs, i, rs, p.ToRecord(tstamp), old(last));
        rs := rs + [p.ToRecord(tstamp)];
        buf := out.value;
      }
      assert kvs[..|kvs|] == kvs;
      BuiltOk(values.hash, threshold, kvs, rs, old(last));
      ok := true;
    }

    /** Index the records of a batch; the superseded blobs are collected first and dropped
        afterwards. */
    method IndexBatch(rs: seq<Record>, base: nat) returns (dead: seq<Hash>)
      requires index.Valid() && forall i :: 0 <= i < |rs| ==> rs[i].IsFull()
      modifies index
      ensures index.Valid() && index.View() == RunAll(old(index.View()), 0, base, rs) && dead == DeadOf(old(index.View()), base, rs)
    {
      hide RunRecord, Record.IsFull, Dead, RunAll, DeadOf;
      dead := [];
      var offset := base;
      IndexNone(index.View(), base);
      for i := 0 to |rs|
        invariant index.Valid() && offset == base + TotalSize(rs[..i])
        invariant index.View() == RunAll(old(index.View()), 0, base, rs[..i]) && dead == DeadOf(old(index.View()), base, rs[..i])
      {
        IndexNext(old(index.View()), base, rs, i);
        var d := IndexRecord(rs[i], offset);
        dead := dead + if d.Some? then [d.value] else [];
        offset := offset + rs[i].Size();
      }
      assert rs[..|rs|] == rs;
    }

    method ReleaseAll(dead: seq<Hash>)
      requires values.Valid()
      modifies values
      ensures values.Valid() && values.View() == UnrefAll(old(values.View()), dead)
    {
      hide Blobs.Unref;
      assert dead[..0] == [];
      for i := 0 to |dead|
        invariant values.Valid() && values.View() == UnrefAll(old(values.View()), dead[..i])
      {
        assert dead[..i + 1] == dead[..i] + [dead[i]];
        UnrefAllSnoc(old(values.View()), dead[..i], dead[i]);
        values.Unref(dead[i]);
      }
      assert dead[..|dead|] == dead;
    }

    /** Many puts in one write. A power loss may cut the write anywhere. */
    method PutMany(kvs: seq<(Bytes, Bytes)>, clocks: seq<U64>) returns (ok: bool, ghost rs: seq<Record>)
      requires Sane() && |clocks| == |kvs| && Roomy(last, clocks)
      modifies this, index, values
      ensures Sane() && (old(Valid()) ==> Valid()) && last >= old(last)
      ensures ok == forall i :: 0 <= i < |kvs| ==> StoredPair(values.hash, threshold, kvs[i].0, kvs[i].1, [], None).Ok()
      ensures ok ==> Built(values.hash, threshold, kvs, rs, old(last)) && State() == AfterWrite(old(State()), rs)
      ensures !ok ==> exists hs :: State() == Took(old(State()), hs)
      ensures ok ==> AllShown(crc, file, index.View(), values.hash, threshold, kvs, rs)
    {
      hide Safe, Sound, EncodeAll, Built, RunAll, DeadOf, UnrefAll, TakeAll, RecordHashes, AllFit, TotalSize, AllShown;
      ghost var s := State();
      ghost var taken;
      var buf, recs;
      ok, buf, recs, taken := BuildBatch(kvs, clocks);
      rs := recs;
      if !ok {
        assert State() == Took(s, taken);
        TookKeeps(s, taken);
        return;
      }
      BuiltFull(values.hash, threshold, kvs, recs, old(last));
      var base := |file|;
      Append(buf, recs);
      var dead := IndexBatch(recs, base);
      ReleaseAll(dead);
      CommitSplit(Took(s, taken), recs);
      assert State() == AfterWrite(s, recs);
      WriteKeeps(s, recs);
      BatchUnsynced(crc, recs);
      BatchShown(crc, State(), recs, values.hash, threshold, kvs, old(last));
    }

    /** `read_value`: the bytes at the key's entry, checked, and behind a hash its blob. It
        fails only when the record is marked as separated and its blob is not there. */
    method ReadValue(key: Bytes) returns (r: ReadResult)
      requires Sane()
      ensures var latest := LatestPut(log, key);
              if latest.None? then r == Missing
              else if !Has(latest.value.flags, VALUE_SEP) then r == Value(latest.value.value, latest.value.meta)
              else if latest.value.Blob().Some? && latest.value.Blob().value in values.files.Keys
              then r.Value? && r.meta == latest.value.meta && values.hash(r.value) == latest.value.Blob().value
              else r == Unreadable
      ensures Valid() && LatestPut(log, key).Some? && LatestPut(log, key).value.Blob().Some? ==> r.Value?
    {
      hide Safe, Sound, EncodeAll, ReadRecord, LatestPut, Has;
      SoundReads(crc, State(), key);
      if key !in index.entries {
        return Missing;
      }
      var e := index.entries[key];
      var rec := Fetched(crc, file, e);
      LatestOnDisk(State(), key);
      var value := Deref(values.hash, values.files, rec.value);
      r := if value.None? then Unreadable else Value(value.value, rec.value.meta);
    }

    /** Drops the key from the index, appends a tombstone, then drops the blob reference. */
    method Tombstone(key: Bytes, clock: U64) returns (rev: Option<U64>)
      requires Sane() && last < U64_MAX
      modifies this, index, values
      ensures Sane() && (old(Valid()) ==> Valid())
      ensures rev.Some? <==> key in old(index.entries)
      ensures rev.Some? ==> rev.value == last == NextStamp(old(last), clock) && State() == AfterWrite(old(State()), [TombstoneRecord(key, last)])
      ensures rev.None? ==> last == old(last) && State() == old(State()).(idx := old(index.View()).Remove(key))
    {
      hide Safe, Sound, EncodeAll, Encode, TotalSize, Blobs.Unref, TombstoneRecord;
      ghost var s := State();
      KeyFits(s, key);
      var dead := Get(index.blobs, key);
      var removed := index.Remove(key);
      if removed.None? {
        AbsentRemoved(s, key);
        return None;
      }
      var tstamp := NextTstamp(clock);
      var r := TombstoneRecord(key, tstamp);
      TombstoneFacts(s, key, tstamp);
      SingleRecord(crc, r);
      AfterWriteOne(s, r, None);
      Append(Encode(crc, r), [r]);
      ReleaseRef(dead);
      assert State() == AfterWrite(s, [r]);
      WriteKeeps(s, [r]);
      rev := Some(tstamp);
    }

    /** Appends a TTL update and changes only the expiry sidecar, whether or not the key
        is present; a key over the size limit is refused. */
    method TtlUpdate(key: Bytes, expires: Option<U64>, clock: U64) returns (rev: Option<U64>)
      requires Sane() && last < U64_MAX
      modifies this, index
      ensures Sane() && (old(Valid()) ==> Valid()) && last == NextStamp(old(last), clock)
      ensures rev.Some? <==> HEADER_LEN + |key| <= U32_MAX
      ensures if rev.Some? then rev.value == last && State() == AfterWrite(old(State()), [TtlRecord(key, expires, last)])
              else State() == old(State())
    {
      hide Safe, Sound, EncodeAll, Encode, TotalSize, TtlRecord;
      ghost var s := State();
      var tstamp := NextTstamp(clock);
      if HEADER_LEN + |key| > U32_MAX {
        return None;
      }
      var r := TtlRecord(key, expires, tstamp);
      TtlFacts(s, key, expires, tstamp);
      SingleRecord(crc, r);
      AfterWriteOne(s, r, None);
      Append(Encode(crc, r), [r]);
      index.SetTtl(key, expires);
      assert State() == AfterWrite(s, [r]);
      WriteKeeps(s, [r]);
      rev := Some(tstamp);
    }

    /** The rest of `sync` once the fsync it started has come back: `needed` says whether it
        started one, which covers the first `mark` records. */
    method EndSync(needed: bool, ghost mark: nat)
      requires Sane() && mark <= |log|
      modifies this`unsyncedBytes, this`synced, values
      ensures Sane() && State() == SyncEnd(old(State()), if needed then mark else 0)
      ensures unsyncedBytes == if needed then 0 else old(unsyncedBytes)
    {
      hide Sound, EncodeAll, Collected;
      ghost var s := State();
      if needed {
        unsyncedBytes := 0;
        synced := if mark > synced then mark else synced;
      }
      values.CollectGarbage();
      SyncSound(s, if needed then mark else 0);
    }

    /** Fsync if anything is unsynced, and only then delete the blobs queued by overwrites
        and deletes. */
    method Sync()
      requires Valid()
      modifies this`unsyncedBytes, this`synced, values
      ensures Valid() && unsyncedBytes == 0 && State() == SyncEnd(old(State()), |log|)
    {
      hide Safe, Sound, EncodeAll, Collected;
      ghost var s := State();
      SyncSafe(s);
      EndSync(unsyncedBytes > 0, |log|);
      SyncedAll(s);
    }

    /** Everything goes: index, files, blobs. */
    method Flush(clock: U64) returns (rev: U64)
      requires index.Valid() && last < U64_MAX
      modifies this, index, values
      ensures Valid() && State() == FLUSHED && rev == last == NextStamp(old(last), clock)
    {
      rev := NextTstamp(clock);
      index.Clear();
      file, unsyncedBytes, log, synced := [], 0, [], 0;
      values.Clear();
      FlushedSafe();
      hide Safe, Sound;
      assert State() == FLUSHED;
      SafeSound(State());
    }
  }

  /** What a pair put last into the log reads back as. */
  lemma PairShown(crc: Crc, s: Ns, rs: seq<Record>, i: nat, hash: Bytes -> Hash, threshold: nat,
                  key: Bytes, value: Bytes, meta: Bytes, expires: Option<U64>)
    requires Sound(s, []) && |rs| <= |s.log| && s.log[|s.log| - |rs|..] == rs && i < |rs|
    requires forall j :: i < j < |rs| ==> rs[j].key != key
    requires var p := StoredPair(hash, threshold, key, value, meta, expires); p.Ok() && rs[i] == p.ToRecord(rs[i].tstamp)
    ensures AllFit(s.log) && key in s.idx.entries
    ensures Shown(crc, EncodeAll(crc, s.log), s.idx.entries[key], hash, threshold, key, value, meta, expires, rs[i].tstamp)
  {
    hide Tracks, Holders, Occurs, EncodeAll, ReadRecord, LatestPut, LatestExpiry, Blobs.Count, Pair.ToRecord, AllFit;
    var front := s.log[..|s.log| - |rs|];
    assert s.log == front + rs;
    LatestInBatch(front, rs, i);
    SoundReads(crc, s, key);
  }

  lemma BatchShown(crc: Crc, s: Ns, rs: seq<Record>, hash: Bytes -> Hash, threshold: nat, kvs: seq<(Bytes, Bytes)>, last: nat)
    requires Sound(s, []) && |rs| <= |s.log| && s.log[|s.log| - |rs|..] == rs && Built(hash, threshold, kvs, rs, last)
    ensures AllFit(s.log) && AllShown(crc, EncodeAll(crc, s.log), s.idx, hash, threshold, kvs, rs)
  {
    hide Shown, EncodeAll, Pair.ToRecord, AllFit, Tracks, Holders, Occurs, Blobs.Count;
    forall i | 0 <= i < |kvs| && forall j :: i < j < |kvs| ==> kvs[j].0 != kvs[i].0
      ensures kvs[i].0 in s.idx.entries
      ensures Shown(crc, EncodeAll(crc, s.log), s.idx.entries[kvs[i].0], hash, threshold, kvs[i].0, kvs[i].1, [], None, rs[i].tstamp)
    {
      forall j | i < j < |rs| ensures rs[j].key != kvs[i].0 {
        assert rs[j].key == StoredPair(hash, threshold, kvs[j].0, kvs[j].1, [], None).key;
      }
      PairShown(crc, s, rs, i, hash, threshold, kvs[i].0, kvs[i].1, [], None);
    }
  }

  /** In a safe namespace the blob of what should be found is on disk. */
  lemma LatestOnDisk(s: Ns, k: Bytes)
    requires Sound(s, [])
    ensures Safe(s, []) && LatestPut(s.log, k).Some? && LatestPut(s.log, k).value.Blob().Some? ==>
              LatestPut(s.log, k).value.Blob().value in s.blobs.onDisk
  {
    hide Tracks, Holders, Occurs, LatestPut, LatestExpiry, Current, CutsPresent, AllFit, RecordAt, Blobs.Count;
    if Safe(s, []) && LatestPut(s.log, k).Some? && LatestPut(s.log, k).value.Blob().Some? {
      CurrentReads(s.log, k);
      EntryRecord(s.log, k);
      assert Named(s.log, LatestPut(s.log, k).value.Blob().value);
      NamedCounted(s, [], LatestPut(s.log, k).value.Blob().value);
    }
  }

  lemma SyncedAll(s: Ns)
    requires Sound(s, [])
    ensures SyncEnd(s, |s.log|).synced == |s.log|
    ensures s.synced == |s.log| ==> SyncEnd(s, 0) == SyncEnd(s, |s.log|)
  {
    hide Tracks, Holders, AllFit;
  }

  lemma SyncSound(s: Ns, mark: nat)
    requires Sound(s, []) && mark <= |s.log|
    ensures Sound(SyncEnd(s, mark), [])
  {
    hide Tracks, Holders, AllFit;
  }

  /** A key in the index was once in a record. */
  lemma KeyFits(s: Ns, k: Bytes)
    requires Sound(s, [])
    ensures k in s.idx.entries ==> HEADER_LEN + |k| <= U32_MAX
  {
    hide Current, Holders;
    assert Agrees(Current(s.log).At(k), s.idx.At(k));
    CurrentKeyFits(s.log, k);
  }

  lemma {:induction false} CurrentKeyFits(log: seq<Record>, k: Bytes)
    requires AllFit(log)
    ensures k in Current(log).entries ==> HEADER_LEN + |k| <= U32_MAX
    decreases |log|
  {
    if log != [] {
      var front, r := log[..|log| - 1], log[|log| - 1];
      assert log == front + [r];
      CurrentSnoc(front, r);
      CurrentKeyFits(front, k);
      hide Current;
      RunRecordAt(Current(front), 0, TotalSize(front), r, k);
      assert Current(log).At(k) == RunSlot(Current(front).At(k), k, 0, TotalSize(front), r);
    }
  }

  /** Dropping an absent key drops at most a stale hash. */
  lemma AbsentRemoved(s: Ns, k: Bytes)
    requires Sound(s, []) && k !in s.idx.entries
    ensures var s' := s.(idx := s.idx.Remove(k)); Sound(s', []) && (Safe(s, []) ==> Safe(s', []))
  {
    hide Current, Holders, CutsPresent, Blobs.Count, AllFit;
    var s' := s.(idx := s.idx.Remove(k));
    forall j
      ensures Agrees(Current(s.log).At(j), s'.idx.At(j))
    {
      assert Agrees(Current(s.log).At(j), s.idx.At(j));
    }
    forall h ensures |Holders(s'.idx.blobs, h)| <= |Holders(s.idx.blobs, h)| {
      PutHolders(s.idx.blobs, k, None, h);
    }
  }

  lemma TombstoneFacts(s: Ns, k: Bytes, tstamp: U64)
    ensures var r := TombstoneRecord(k, tstamp);
            && r.Size() == HEADER_LEN + |k| && RecordHashes([r]) == [] && Dead(s.idx, r) == Get(s.idx.blobs, k)
            && RunRecord(s.idx, 0, TotalSize(s.log), r) == s.idx.Remove(k)
  {
    assert [TombstoneRecord(k, tstamp)][1..] == [];
  }

  lemma TtlFacts(s: Ns, k: Bytes, expires: Option<U64>, tstamp: U64)
    ensures var r := TtlRecord(k, expires, tstamp);
            && r.Size() == HEADER_LEN + |k| && RecordHashes([r]) == [] && Dead(s.idx, r) == None
            && RunRecord(s.idx, 0, TotalSize(s.log), r) == s.idx.SetTtl(k, expires)
  {
    assert [TtlRecord(k, expires, tstamp)][1..] == [];
  }

  lemma IsReopened(s: Ns, b: Blobs, kept: seq<Record>)
    requires s.log == kept && s.synced == |kept| && s.idx == Replay(EMPTY, 0, 0, kept) && b.pending == []
    requires s.blobs == Swept(b) && forall h :: b.Count(h) == |Holders(s.idx.blobs, h)|
    ensures Reopened(s, kept, b.onDisk)
  {
    hide Replay, Holders;
  }

  /** The newest revision of an index, zero when it is empty. */
  predicate IsNewest(entries: map<Bytes, IndexEntry>, last: U64) {
    && (forall k :: k in entries ==> entries[k].tstamp <= last)
    && (last == 0 || exists k :: k in entries && entries[k].tstamp == last)
  }

  /** The clocks leave room for one revision each. */
  predicate Roomy(last: nat, clocks: seq<U64>) {
    last + |clocks| <= U64_MAX && forall i :: 0 <= i < |clocks| ==> clocks[i] + |clocks| <= U64_MAX
  }

  /** The records of a batch: each pair's own, with increasing revisions above `last`. */
  ghost predicate Built(hash: Bytes -> Hash, threshold: nat, kvs: seq<(Bytes, Bytes)>, rs: seq<Record>, last: nat) {
    && |rs| == |kvs|
    && (forall i :: 0 <= i < |rs| ==>
          var p := StoredPair(hash, threshold, kvs[i].0, kvs[i].1, [], None); p.Ok() && rs[i] == p.ToRecord(rs[i].tstamp))
    && (forall i :: 0 <= i < |rs| ==> rs[i].tstamp > last)
    && (forall i, j :: 0 <= i < j < |rs| ==> rs[i].tstamp < rs[j].tstamp)
  }

  lemma StartBatch(crc: Crc, b: Blobs)
    ensures TakeAll(b, []) == b && AllFit([]) && EncodeAll(crc, []) == [] && RecordHashes([]) == []
  {
  }

  lemma TakeNext(b: Blobs, taken: seq<Hash>, h: Option<Hash>)
    ensures TakeAll(b, taken + if h.Some? then [h.value] else []) == if h.Some? then TakeRef(TakeAll(b, taken), h.value) else TakeAll(b, taken)
  {
    hide TakeRef;
    if h.Some? {
      assert (taken + [h.value])[..|taken|] == taken;
    } else {
      assert taken + [] == taken;
    }
  }

  lemma PairFits(p: Pair, tstamp: U64, flags: Byte)
    requires flags == (if p.separated then VALUE_SEP else 0) + NO_EXPIRY && p.meta == [] && p.expires.None? && (p.separated ==> |p.stored| == 16)
    ensures p.Ok() <==> Record(tstamp, flags, 0, p.key, p.stored, []).Fits()
    ensures p.Ok() ==> p.ToRecord(tstamp) == Record(tstamp, flags, 0, p.key, p.stored, [])
  {
  }

  lemma NextInBatch(crc: Crc, rs: seq<Record>, r: Record)
    requires AllFit(rs) && r.Fits()
    ensures AllFit(rs + [r]) && EncodeAll(crc, rs + [r]) == EncodeAll(crc, rs) + Encode(crc, r)
    ensures RecordHashes(rs + [r]) == RecordHashes(rs) + RecordHashes([r])
  {
    hide Encode;
    SingleRecord(crc, r);
    EncodeAllAppend(crc, rs, [r]);
    RecordHashesSnoc(rs + [r]);
    RecordHashesSnoc([r]);
    assert (rs + [r])[..|rs|] == rs && [r][..0] == [];
  }

  lemma BuiltNone(hash: Bytes -> Hash, threshold: nat, kvs: seq<(Bytes, Bytes)>, last: nat)
    ensures kvs == [] ==> Built(hash, threshold, kvs, [], last)
  {
  }

  lemma BuiltNext(hash: Bytes -> Hash, threshold: nat, kvs: seq<(Bytes, Bytes)>, i: nat, rs: seq<Record>, r: Record, last: nat)
    requires i < |kvs| && Built(hash, threshold, kvs[..i], rs, last)
    requires r.tstamp > last && (rs != [] ==> r.tstamp > rs[|rs| - 1].tstamp)
    requires var p := StoredPair(hash, threshold, kvs[i].0, kvs[i].1, [], None); p.Ok() && r == p.ToRecord(r.tstamp)
    ensures Built(hash, threshold, kvs[..i + 1], rs + [r], last)
  {
    hide Pair.ToRecord, StoredPair;
    assert forall j :: 0 <= j < i ==> kvs[..i + 1][j] == kvs[..i][j];
  }

  lemma BuiltOk(hash: Bytes -> Hash, threshold: nat, kvs: seq<(Bytes, Bytes)>, rs: seq<Record>, last: nat)
    requires Built(hash, threshold, kvs, rs, last)
    ensures forall i :: 0 <= i < |kvs| ==> StoredPair(hash, threshold, kvs[i].0, kvs[i].1, [], None).Ok()
  {
    hide Pair.ToRecord, StoredPair;
  }

  lemma BuiltFull(hash: Bytes -> Hash, threshold: nat, kvs: seq<(Bytes, Bytes)>, rs: seq<Record>, last: nat)
    requires Built(hash, threshold, kvs, rs, last)
    ensures forall i :: 0 <= i < |rs| ==> rs[i].IsFull()
  {
    hide Pair.ToRecord, StoredPair, Record.IsFull;
  }

  lemma IndexNone(idx: Index, base: nat)
    ensures forall rs :: rs == [] ==> RunAll(idx, 0, base, rs) == idx && DeadOf(idx, base, rs) == [] && TotalSize(rs) == 0
  {
  }

  lemma IndexNext(idx: Index, base: nat, rs: seq<Record>, i: nat)
    requires i < |rs|
    ensures RunAll(idx, 0, base, rs[..i + 1]) == RunRecord(RunAll(idx, 0, base, rs[..i]), 0, base + TotalSize(rs[..i]), rs[i])
    ensures var d := Dead(RunAll(idx, 0, base, rs[..i]), rs[i]);
            DeadOf(idx, base, rs[..i + 1]) == DeadOf(idx, base, rs[..i]) + if d.Some? then [d.value] else []
    ensures TotalSize(rs[..i + 1]) == TotalSize(rs[..i]) + rs[i].Size()
  {
    hide RunRecord, Dead, RunAll;
    assert rs[..i + 1] == rs[..i] + [rs[i]] && rs[..i + 1][..i] == rs[..i];
    RunAllSnoc(idx, base, rs[..i], rs[i]);
    TotalSizeAppend(rs[..i], [rs[i]]);
    TotalSizeCons(rs[i], []);
  }

  lemma TookKeeps(s: Ns, hs: seq<Hash>)
    requires Sound(s, [])
    ensures Sound(Took(s, hs), []) && (Safe(s, []) ==> Safe(Took(s, hs), []))
  {
    hide Sound, Safe, TakeAll;
    TookSound(s, hs);
    SoundWithout(Took(s, hs), hs);
    if Safe(s, []) {
      TookSafe(s, hs);
      SafeWithout(Took(s, hs), hs);
    }
  }

  lemma BatchUnsynced(crc: Crc, rs: seq<Record>)
    requires AllFit(rs)
    ensures |EncodeAll(crc, rs)| == 0 ==> rs == []
  {
    hide Encode;
  }

  /** Taking the references of some records and committing them. */
  function AfterWrite(s: Ns, rs: seq<Record>): Ns {
    CommitAll(Took(s, RecordHashes(rs)), rs)
  }

  lemma SafeSound(s: Ns)
    requires Safe(s, [])
    ensures Sound(s, [])
  {
  }

  lemma TookOne(s: Ns, h: Option<Hash>)
    ensures Took(s, if h.Some? then [h.value] else []) == if h.Some? then s.(blobs := TakeRef(s.blobs, h.value)) else s
  {
    hide TakeRef;
    if h.Some? {
      var hs := [h.value];
      assert hs[..|hs| - 1] == [] && hs[|hs| - 1] == h.value;
      assert TakeAll(s.blobs, hs) == TakeRef(TakeAll(s.blobs, []), h.value);
    }
  }

  lemma SoundWithout(s: Ns, owed: seq<Hash>)
    requires Sound(s, owed)
    ensures Sound(s, [])
  {
    hide Tracks, Holders, AllFit;
  }

  lemma ToRecordHashes(p: Pair, tstamp: U64)
    requires p.Ok()
    ensures var r := p.ToRecord(tstamp);
            r.IsFull() && r.Fits() && RecordHashes([r]) == if p.separated then [p.stored] else []
  {
    hide Pair.ToRecord;
    var r := p.ToRecord(tstamp);
    assert [r][1..] == [];
  }

  lemma SingleRecord(crc: Crc, r: Record)
    requires r.Fits()
    ensures AllFit([r]) && EncodeAll(crc, [r]) == Encode(crc, r)
  {
    hide Encode;
    assert [r][1..] == [];
  }

  lemma AfterWriteOne(s: Ns, r: Record, h: Option<Hash>)
    requires RecordHashes([r]) == if h.Some? then [h.value] else []
    ensures AfterWrite(s, [r]) == CommitOne(if h.Some? then s.(blobs := TakeRef(s.blobs, h.value)) else s, r)
  {
    hide CommitOne, TakeRef, RecordHashes;
    TookOne(s, h);
    var rs := [r];
    assert rs[..|rs| - 1] == [] && rs[|rs| - 1] == r;
    var s1 := Took(s, RecordHashes(rs));
    assert CommitAll(s1, rs) == CommitOne(CommitAll(s1, []), r);
  }

  lemma WriteKeeps(s: Ns, rs: seq<Record>)
    requires Sound(s, []) && AllFit(rs)
    ensures Sound(AfterWrite(s, rs), []) && (Safe(s, []) ==> Safe(AfterWrite(s, rs), []))
  {
    hide Sound, Safe, CommitAll, Took, RecordHashes, AllFit;
    WriteSound(s, rs);
    if Safe(s, []) {
      WriteSafe(s, rs);
    }
  }
}
