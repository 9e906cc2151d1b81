/** What a power loss can find: the log with its synced part, the index, the blobs. Every
    operation of a namespace is one transition here, taking references and committing
    records; the rest is about which blobs are on disk when. */
module CrashState {
  import opened Types
  import opened Records
  import opened NamespaceIndex
  import opened Recover
  import opened LogMachine
  import opened LogReplay
  import opened LogBlobs

  /** The runtime index after a log: its blob sidecar holds exactly the hashes of the
      separated records that are current. */
  function Current(log: seq<Record>): Index {
    RunAll(EMPTY, 0, 0, log)
  }

  lemma {:induction false} RunAllAppend(idx: Index, fileId: nat, offset: nat, rs: seq<Record>, ss: seq<Record>)
    ensures RunAll(idx, fileId, offset, rs + ss) == RunAll(RunAll(idx, fileId, offset, rs), fileId, offset + TotalSize(rs), ss)
    decreases |rs|
  {
    hide RunRecord;
    if rs == [] {
      assert rs + ss == ss;
    } else {
      RunAllAppend(RunRecord(idx, fileId, offset, rs[0]), fileId, offset + rs[0].Size(), rs[1..], ss);
      assert (rs + ss)[1..] == rs[1..] + ss;
    }
  }

  lemma CurrentSnoc(log: seq<Record>, r: Record)
    ensures Current(log + [r]) == RunRecord(Current(log), 0, TotalSize(log), r)
  {
    hide RunRecord;
    RunAllAppend(EMPTY, 0, 0, log, [r]);
    var idx := Current(log);
    assert RunAll(idx, 0, TotalSize(log), [r]) == RunAll(RunRecord(idx, 0, TotalSize(log), r), 0, TotalSize(log) + r.Size(), [r][1..]);
  }

  /** An index that agrees with a log: same entries and expiries, sidecar covering. */
  ghost predicate Tracks(view: Index, log: seq<Record>) {
    forall k :: Agrees(Current(log).At(k), view.At(k))
  }

  lemma TracksRecord(view: Index, log: seq<Record>, r: Record)
    requires Tracks(view, log)
    ensures Tracks(RunRecord(view, 0, TotalSize(log), r), log + [r])
  {
    hide Current, Agrees, RunRecord;
    CurrentSnoc(log, r);
    forall k
      ensures Agrees(Current(log + [r]).At(k), RunRecord(view, 0, TotalSize(log), r).At(k))
    {
      RunRecordAt(Current(log), 0, TotalSize(log), r, k);
      RunRecordAt(view, 0, TotalSize(log), r, k);
      AgreeSame(Current(log).At(k), view.At(k), k, 0, TotalSize(log), r);
    }
  }

  lemma AgreeSame(a: Slot, b: Slot, k: Bytes, fileId: nat, offset: nat, r: Record)
    requires Agrees(a, b)
    ensures Agrees(RunSlot(a, k, fileId, offset, r), RunSlot(b, k, fileId, offset, r))
  {
  }

  /** Replay of the whole log tracks it. */
  lemma ReplayTracks(log: seq<Record>)
    requires AllFit(log)
    ensures Tracks(Replay(EMPTY, 0, 0, log), log)
  {
    hide Agrees;
    forall k
      ensures Agrees(Current(log).At(k), Replay(EMPTY, 0, 0, log).At(k))
    {
      RunAllAt(EMPTY, 0, 0, log, k);
      ReplayAt(EMPTY, 0, 0, log, k);
      AgreesWithItself(EMPTY.At(k));
      AgreeRecords(EMPTY.At(k), EMPTY.At(k), k, 0, 0, log);
    }
  }

  lemma AgreesWithItself(s: Slot)
    ensures Agrees(s, s)
  {
  }

  lemma RecordBlobs(idx: Index, offset: nat, r: Record)
    ensures forall k :: Get(RunRecord(idx, 0, offset, r).blobs, k)
              == if k != r.key || r.IsTtlUpdate() then Get(idx.blobs, k) else if r.IsTombstone() then None else r.Blob()
  {
  }

  /** Some key's current record in the log is the blob `h`. */
  ghost predicate Named(log: seq<Record>, h: Hash) {
    exists k :: k in Current(log).blobs && Current(log).blobs[k] == h
  }

  /** Every blob that the log's current records name is on disk. */
  ghost predicate BlobsPresent(log: seq<Record>, onDisk: set<Hash>) {
    forall h :: Named(log, h) ==> h in onDisk
  }

  /** ... and so for every cut a power loss may leave. */
  ghost predicate CutsPresent(log: seq<Record>, synced: nat, onDisk: set<Hash>) {
    forall c :: synced <= c <= |log| ==> BlobsPresent(log[..c], onDisk)
  }

  /** What a new record's cut names was named before, or is its own blob. */
  lemma NamedSnoc(log: seq<Record>, r: Record, h: Hash)
    requires Named(log + [r], h)
    ensures Named(log, h) || (r.IsFull() && r.Blob() == Some(h))
  {
    hide Current, RunRecord, Record.Blob, Record.IsFull, Record.IsTombstone, Record.IsTtlUpdate;
    var k :| k in Current(log + [r]).blobs && Current(log + [r]).blobs[k] == h;
    CurrentSnoc(log, r);
    RecordBlobs(Current(log), TotalSize(log), r);
    assert Get(RunRecord(Current(log), 0, TotalSize(log), r).blobs, k) == Some(h);
    FullOtherwise(r);
    assert k in Current(log).blobs ==> Get(Current(log).blobs, k) == Some(Current(log).blobs[k]);
  }

  lemma FullOtherwise(r: Record)
    ensures r.IsFull() <==> !r.IsTtlUpdate() && !r.IsTombstone()
  {
  }

  /** Appending a record whose blob is on disk keeps every cut covered. */
  lemma CutsExtend(log: seq<Record>, synced: nat, onDisk: set<Hash>, r: Record)
    requires synced <= |log| && CutsPresent(log, synced, onDisk)
    requires r.IsFull() && r.Blob().Some? ==> r.Blob().value in onDisk
    ensures CutsPresent(log + [r], synced, onDisk)
  {
    hide Named, Record.Blob, Record.IsFull;
    forall c | synced <= c <= |log + [r]|
      ensures BlobsPresent((log + [r])[..c], onDisk)
    {
      if c <= |log| {
        assert (log + [r])[..c] == log[..c];
      } else {
        assert (log + [r])[..c] == log + [r];
        assert log[..|log|] == log && BlobsPresent(log[..|log|], onDisk);
        forall h | Named(log + [r], h) ensures h in onDisk {
          NamedSnoc(log, r, h);
        }
      }
    }
  }

  /** A namespace as a crash would find it: `synced` records are known to be durable. */
  datatype Ns = Ns(log: seq<Record>, synced: nat, idx: Index, blobs: Blobs)

  /** The index agrees with the log and every reference is counted, those in `owed` too. */
  ghost predicate Sound(s: Ns, owed: seq<Hash>) {
    && AllFit(s.log) && s.synced <= |s.log| && Tracks(s.idx, s.log)
    && forall h :: s.blobs.Count(h) >= |Holders(s.idx.blobs, h)| + Occurs(owed, h)
  }

  ghost predicate CountedOnDisk(b: Blobs) {
    forall h :: b.Count(h) > 0 ==> h in b.onDisk
  }

  /** No power loss that keeps the synced records loses a blob they need. */
  ghost predicate Safe(s: Ns, owed: seq<Hash>) {
    Sound(s, owed) && CountedOnDisk(s.blobs) && CutsPresent(s.log, s.synced, s.blobs.onDisk)
  }

  /** The sidecar holds nothing but current hashes, as it does without a restart. */
  ghost predicate ExactSidecar(s: Ns) {
    s.idx.blobs == Current(s.log).blobs
  }

  /** One more reference to `h`; the first one writes the file. */
  function TakeRef(b: Blobs, h: Hash): Blobs {
    b.Incr(h).(onDisk := if b.Count(h) == 0 then b.onDisk + {h} else b.onDisk)
  }

  function TakeAll(b: Blobs, hs: seq<Hash>): Blobs {
    if hs == [] then b else TakeRef(TakeAll(b, hs[..|hs| - 1]), hs[|hs| - 1])
  }

  /** The blob a record takes out of the index. */
  function Dead(idx: Index, r: Record): Option<Hash> {
    if r.IsTtlUpdate() then None else Get(idx.blobs, r.key)
  }

  function Release(b: Blobs, dead: Option<Hash>): Blobs {
    if dead.Some? then b.Unref(dead.value) else b
  }

  function CommitOne(s: Ns, r: Record): Ns {
    Ns(s.log + [r], s.synced, RunRecord(s.idx, 0, TotalSize(s.log), r), Release(s.blobs, Dead(s.idx, r)))
  }

  /** Append records, index them, drop the references they supersede. */
  function CommitAll(s: Ns, rs: seq<Record>): Ns {
    if rs == [] then s else CommitOne(CommitAll(s, rs[..|rs| - 1]), rs[|rs| - 1])
  }

  lemma DeadBalance(idx: Index, offset: nat, r: Record, h: Hash)
    ensures |Holders(RunRecord(idx, 0, offset, r).blobs, h)| + (if Dead(idx, r) == Some(h) then 1 else 0)
            == |Holders(idx.blobs, h)| + (if r.IsFull() && r.Blob() == Some(h) then 1 else 0)
  {
    hide Holders;
    if r.IsTombstone() {
      assert RunRecord(idx, 0, offset, r).blobs == Put(idx.blobs, r.key, None);
      PutHolders(idx.blobs, r.key, None, h);
    } else if !r.IsTtlUpdate() {
      PutHolders(idx.blobs, r.key, r.Blob(), h);
    }
  }

  lemma ReleaseCount(b: Blobs, dead: Option<Hash>, h: Hash)
    ensures Release(b, dead).Count(h) == if dead == Some(h) && b.Count(h) > 0 then b.Count(h) - 1 else b.Count(h)
  {
  }

  /** Only the last reference queues a blob, and no file is touched. */
  lemma ReleaseKeeps(b: Blobs, dead: Option<Hash>)
    ensures Release(b, dead).onDisk == b.onDisk
    ensures dead.Some? && b.Count(dead.value) > 0 ==>
              Release(b, dead).pending == if b.Count(dead.value) == 1 then b.pending + [dead.value] else b.pending
    ensures dead.None? ==> Release(b, dead).pending == b.pending
  {
  }

  /** The reference a record brings into the index. */
  function Own(r: Record): seq<Hash> {
    if r.IsFull() && r.Blob().Some? then [r.Blob().value] else []
  }

  lemma OwnIs(r: Record)
    ensures Own(r) == if r.IsFull() && r.Blob().Some? then [r.Blob().value] else []
  {
  }

  lemma OwnOccurs(r: Record, owed: seq<Hash>, h: Hash)
    ensures Occurs(Own(r) + owed, h) == Occurs(owed, h) + if r.IsFull() && r.Blob() == Some(h) then 1 else 0
  {
    OccursAppend(Own(r), owed, h);
    OccursOne(h, r.Blob());
  }

  /** A record commits the reference it owes. */
  lemma CommitOneSound(s: Ns, r: Record, owed: seq<Hash>)
    requires Sound(s, Own(r) + owed) && r.Fits()
    ensures Sound(CommitOne(s, r), owed)
  {
    hide Tracks, Holders, Occurs, Own, RunRecord, Record.IsFull, Record.Blob, Record.Fits, Dead, Blobs.Count, Release;
    TracksRecord(s.idx, s.log, r);
    forall h
      ensures CommitOne(s, r).blobs.Count(h) >= |Holders(CommitOne(s, r).idx.blobs, h)| + Occurs(owed, h)
    {
      OwnOccurs(r, owed, h);
      DeadBalance(s.idx, TotalSize(s.log), r, h);
      ReleaseCount(s.blobs, Dead(s.idx, r), h);
    }
  }

  lemma CommitOneSafe(s: Ns, r: Record, owed: seq<Hash>)
    requires Safe(s, Own(r) + owed) && r.Fits()
    ensures Safe(CommitOne(s, r), owed)
  {
    hide Sound, CutsPresent, Holders, Occurs, Own, RunRecord, Record.IsFull, Record.Blob, Record.Fits, Dead, Blobs.Count, Release;
    CommitOneSound(s, r, owed);
    forall h ensures Release(s.blobs, Dead(s.idx, r)).Count(h) > 0 ==> h in s.blobs.onDisk {
      ReleaseCount(s.blobs, Dead(s.idx, r), h);
    }
    ReleaseKeeps(s.blobs, Dead(s.idx, r));
    OwnOnDisk(s, r, owed);
    CutsExtend(s.log, s.synced, s.blobs.onDisk, r);
  }

  lemma OwnOnDisk(s: Ns, r: Record, owed: seq<Hash>)
    requires Sound(s, Own(r) + owed) && CountedOnDisk(s.blobs)
    ensures s.synced <= |s.log|
    ensures r.IsFull() && r.Blob().Some? ==> r.Blob().value in s.blobs.onDisk
  {
    hide Tracks, Holders, Occurs, Own, Record.IsFull, Record.Blob;
    if r.IsFull() && r.Blob().Some? {
      OwnOccurs(r, owed, r.Blob().value);
    }
  }

  lemma CommitOneExact(s: Ns, r: Record)
    requires ExactSidecar(s)
    ensures ExactSidecar(CommitOne(s, r))
  {
    hide Current, RunRecord, Release, Record.Blob, Record.IsTombstone, Record.IsTtlUpdate;
    CurrentSnoc(s.log, r);
    RecordBlobs(s.idx, TotalSize(s.log), r);
    RecordBlobs(Current(s.log), TotalSize(s.log), r);
    SameMap(CommitOne(s, r).idx.blobs, Current(s.log + [r]).blobs);
  }

  lemma SameMap(a: map<Bytes, Hash>, b: map<Bytes, Hash>)
    requires forall k :: Get(a, k) == Get(b, k)
    ensures a == b
  {
    forall k ensures k in a <==> k in b { assert Get(a, k) == Get(b, k); }
    forall k | k in a ensures a[k] == b[k] { assert Get(a, k) == Get(b, k); }
  }

  /** A batch: every cut through it is covered as well. */
  lemma {:induction false} CommitSafe(s: Ns, rs: seq<Record>, owed: seq<Hash>)
    requires Safe(s, RecordHashes(rs) + owed) && AllFit(rs)
    ensures Safe(CommitAll(s, rs), owed)
    decreases |rs|
  {
    hide Safe, CommitOne, Own, AllFit;
    if rs == [] {
      assert RecordHashes(rs) + owed == owed;
    } else {
      var n := |rs| - 1;
      FrontFits(rs);
      OweLast(s, rs, owed);
      CommitSafe(s, rs[..n], Own(rs[n]) + owed);
      CommitOneSafe(CommitAll(s, rs[..n]), rs[n], owed);
    }
  }

  lemma FrontFits(rs: seq<Record>)
    requires rs != [] && AllFit(rs)
    ensures AllFit(rs[..|rs| - 1]) && rs[|rs| - 1].Fits()
  {
  }

  lemma OweLast(s: Ns, rs: seq<Record>, owed: seq<Hash>)
    requires rs != [] && Safe(s, RecordHashes(rs) + owed)
    ensures Safe(s, RecordHashes(rs[..|rs| - 1]) + (Own(rs[|rs| - 1]) + owed))
  {
    hide Tracks, Holders, Occurs, CountedOnDisk, CutsPresent, RecordHashes, Own, Blobs.Count, AllFit;
    var n := |rs| - 1;
    RecordHashesSnoc(rs);
    OwnIs(rs[n]);
    forall h ensures Occurs(RecordHashes(rs[..n]) + (Own(rs[n]) + owed), h) == Occurs(RecordHashes(rs) + owed, h) {
      assert RecordHashes(rs[..n]) + (Own(rs[n]) + owed) == RecordHashes(rs[..n]) + Own(rs[n]) + owed;
    }
  }

  lemma {:induction false} CommitExact(s: Ns, rs: seq<Record>)
    requires ExactSidecar(s)
    ensures ExactSidecar(CommitAll(s, rs))
    decreases |rs|
  {
    hide ExactSidecar, CommitOne;
    if rs != [] {
      CommitExact(s, rs[..|rs| - 1]);
      CommitOneExact(CommitAll(s, rs[..|rs| - 1]), rs[|rs| - 1]);
    }
  }

  lemma TakeSafe(s: Ns, owed: seq<Hash>, h: Hash)
    requires Safe(s, owed)
    ensures Safe(s.(blobs := TakeRef(s.blobs, h)), [h] + owed)
  {
    hide Tracks, Holders, Occurs, Named, AllFit;
    forall g ensures Occurs([h] + owed, g) == Occurs(owed, g) + if g == h then 1 else 0 {
      OccursAppend([h], owed, g);
      OccursOne(g, Some(h));
    }
  }

  /** Only present keys have a blob. */
  lemma {:induction false} BlobsArePresent(log: seq<Record>, k: Bytes)
    ensures k in Current(log).blobs ==> k in Current(log).entries
    decreases |log|
  {
    if log != [] {
      var front, r := log[..|log| - 1], log[|log| - 1];
      assert log == front + [r];
      CurrentSnoc(front, r);
      BlobsArePresent(front, k);
      hide Current;
      RunRecordAt(Current(front), 0, TotalSize(front), r, k);
      assert Current(log).At(k) == RunSlot(Current(front).At(k), k, 0, TotalSize(front), r);
    }
  }

  /** A blob that a current record names is held in the sidecar of an index that tracks it. */
  lemma NamedHeld(view: Index, log: seq<Record>, h: Hash)
    requires Tracks(view, log) && Named(log, h)
    ensures |Holders(view.blobs, h)| > 0
  {
    hide Current;
    var k :| k in Current(log).blobs && Current(log).blobs[k] == h;
    assert Agrees(Current(log).At(k), view.At(k));
    BlobsArePresent(log, k);
    assert Get(view.blobs, k) == Some(h);
    assert k in Holders(view.blobs, h);
  }

  lemma NamedCounted(s: Ns, owed: seq<Hash>, h: Hash)
    requires Sound(s, owed) && Named(s.log, h)
    ensures s.blobs.Count(h) > 0
  {
    hide Tracks, Named, Holders;
    NamedHeld(s.idx, s.log, h);
  }

  /** Since a point in time with `mark` records and `m` queued blobs, whatever some cut
      names is still referenced or has been queued. */
  ghost predicate Window(s: Ns, mark: nat, m: nat) {
    && mark <= |s.log| && m <= |s.blobs.pending|
    && forall c, h :: mark <= c <= |s.log| && Named(s.log[..c], h) ==> s.blobs.Count(h) > 0 || h in s.blobs.pending[m..]
  }

  ghost predicate NamedSince(log: seq<Record>, mark: nat, h: Hash) {
    exists c :: mark <= c <= |log| && Named(log[..c], h)
  }

  /** ... and what has been queued since is named by some cut since. */
  ghost predicate QueuedWereNamed(s: Ns, mark: nat, m: nat) {
    m <= |s.blobs.pending| && forall j :: m <= j < |s.blobs.pending| ==> NamedSince(s.log, mark, s.blobs.pending[j])
  }

  lemma OpenWindow(s: Ns, owed: seq<Hash>)
    requires Sound(s, owed)
    ensures Window(s, |s.log|, |s.blobs.pending|) && QueuedWereNamed(s, |s.log|, |s.blobs.pending|)
  {
    hide Named, Tracks, Holders, Occurs, Blobs.Count;
    assert s.log[..|s.log|] == s.log;
    forall h | Named(s.log, h) ensures s.blobs.Count(h) > 0 {
      NamedCounted(s, owed, h);
    }
  }

  lemma TakeWindow(s: Ns, mark: nat, m: nat, h: Hash)
    requires Window(s, mark, m)
    ensures Window(s.(blobs := TakeRef(s.blobs, h)), mark, m)
  {
    hide Named;
  }

  lemma WindowCut(s: Ns, mark: nat, m: nat, c: nat, h: Hash)
    requires Window(s, mark, m) && mark <= c <= |s.log| && Named(s.log[..c], h)
    ensures s.blobs.Count(h) > 0 || h in s.blobs.pending[m..]
  {
  }

  lemma ReleaseQueues(b: Blobs, dead: Option<Hash>, m: nat, h: Hash)
    requires m <= |b.pending| && (b.Count(h) > 0 || h in b.pending[m..])
    ensures m <= |Release(b, dead).pending|
    ensures Release(b, dead).Count(h) > 0 || h in Release(b, dead).pending[m..]
  {
    var p := Release(b, dead).pending;
    assert p == b.pending || p == b.pending + [dead.value];
    assert p != b.pending ==> p[m..] == b.pending[m..] + [dead.value];
  }

  lemma CommitOneWindow(s: Ns, r: Record, owed: seq<Hash>, mark: nat, m: nat)
    requires Sound(s, Own(r) + owed) && r.Fits() && Window(s, mark, m)
    ensures Window(CommitOne(s, r), mark, m)
  {
    hide Sound, Window, Named, Tracks, Holders, Occurs, Own, RunRecord, Dead, Release, Blobs.Count, Record.Fits;
    var s' := CommitOne(s, r);
    CommitOneSound(s, r, owed);
    WindowBounds(s, mark, m);
    ReleaseLength(s.blobs, Dead(s.idx, r));
    forall c, h | mark <= c <= |s'.log| && Named(s'.log[..c], h)
      ensures s'.blobs.Count(h) > 0 || h in s'.blobs.pending[m..]
    {
      if c <= |s.log| {
        assert s'.log[..c] == s.log[..c];
        WindowCut(s, mark, m, c, h);
        ReleaseQueues(s.blobs, Dead(s.idx, r), m, h);
      } else {
        assert s'.log[..c] == s'.log;
        NamedCounted(s', owed, h);
      }
    }
    IsWindow(s', mark, m);
  }

  lemma WindowBounds(s: Ns, mark: nat, m: nat)
    requires Window(s, mark, m)
    ensures mark <= |s.log| && m <= |s.blobs.pending|
  {
  }

  lemma ReleaseLength(b: Blobs, dead: Option<Hash>)
    ensures |Release(b, dead).pending| >= |b.pending|
  {
  }

  lemma IsWindow(s: Ns, mark: nat, m: nat)
    requires mark <= |s.log| && m <= |s.blobs.pending|
    requires forall c, h :: mark <= c <= |s.log| && Named(s.log[..c], h) ==> s.blobs.Count(h) > 0 || h in s.blobs.pending[m..]
    ensures Window(s, mark, m)
  {
  }

  lemma NamedSinceSnoc(log: seq<Record>, r: Record, mark: nat, h: Hash)
    requires NamedSince(log, mark, h)
    ensures NamedSince(log + [r], mark, h)
  {
    hide Named;
    var c :| mark <= c <= |log| && Named(log[..c], h);
    assert (log + [r])[..c] == log[..c];
  }

  /** Without stale hashes, a record queues only what the cut before it names. */
  lemma CommitOneQueues(s: Ns, r: Record, mark: nat, m: nat)
    requires ExactSidecar(s) && mark <= |s.log| && QueuedWereNamed(s, mark, m)
    ensures QueuedWereNamed(CommitOne(s, r), mark, m)
  {
    hide Named, NamedSince, RunRecord, Current;
    var s' := CommitOne(s, r);
    var dead := Dead(s.idx, r);
    if dead.Some? {
      DeadNamed(s, r, mark);
    }
    forall j | m <= j < |s'.blobs.pending| ensures NamedSince(s'.log, mark, s'.blobs.pending[j]) {
      assert s'.blobs.pending == s.blobs.pending || s'.blobs.pending == s.blobs.pending + [dead.value];
      NamedSinceSnoc(s.log, r, mark, s'.blobs.pending[j]);
    }
  }

  lemma DeadNamed(s: Ns, r: Record, mark: nat)
    requires ExactSidecar(s) && mark <= |s.log| && Dead(s.idx, r).Some?
    ensures NamedSince(s.log, mark, Dead(s.idx, r).value)
  {
    hide Current;
    var h := Dead(s.idx, r).value;
    assert r.key in Current(s.log).blobs && Current(s.log).blobs[r.key] == h;
    assert Named(s.log, h);
    assert s.log[..|s.log|] == s.log;
  }

  /** The queued blobs that nothing references go. */
  function Collected(b: Blobs): Blobs {
    b.(pending := [], onDisk := set h | h in b.onDisk && !(h in b.pending && b.Count(h) == 0))
  }

  /** An fsync that covers the first `mark` records has come back; then garbage is collected. */
  function SyncEnd(s: Ns, mark: nat): Ns {
    s.(synced := if mark > s.synced then mark else s.synced, blobs := Collected(s.blobs))
  }

  /** Collecting after an fsync is safe if and only if every blob queued while it was under
      way is referenced again. */
  lemma SyncEndExact(s: Ns, mark: nat, m: nat)
    requires Safe(s, []) && s.synced <= mark && Window(s, mark, m) && QueuedWereNamed(s, mark, m)
    ensures Safe(SyncEnd(s, mark), []) <==> forall j :: m <= j < |s.blobs.pending| ==> s.blobs.Count(s.blobs.pending[j]) > 0
  {
    hide Named, Tracks, Holders, Occurs, AllFit, NamedSince;
    var s' := SyncEnd(s, mark);
    if forall j :: m <= j < |s.blobs.pending| ==> s.blobs.Count(s.blobs.pending[j]) > 0 {
      forall c, h | mark <= c <= |s.log| && Named(s.log[..c], h) ensures h in s'.blobs.onDisk {
        WindowCut(s, mark, m, c, h);
      }
      SyncedSafe(s, mark);
    } else {
      var j :| m <= j < |s.blobs.pending| && s.blobs.Count(s.blobs.pending[j]) == 0;
      LostBlob(s, mark, s.blobs.pending[j]);
    }
  }

  lemma SyncedSafe(s: Ns, mark: nat)
    requires Safe(s, []) && s.synced <= mark <= |s.log|
    requires forall c, h :: mark <= c <= |s.log| && Named(s.log[..c], h) ==> h in Collected(s.blobs).onDisk
    ensures Safe(SyncEnd(s, mark), [])
  {
    hide Named, Tracks, Holders, Occurs, AllFit;
  }

  lemma LostBlob(s: Ns, mark: nat, h: Hash)
    requires NamedSince(s.log, mark, h) && s.synced <= mark && h in s.blobs.pending && s.blobs.Count(h) == 0
    ensures !CutsPresent(s.log, SyncEnd(s, mark).synced, SyncEnd(s, mark).blobs.onDisk)
  {
    hide Named;
    var c :| mark <= c <= |s.log| && Named(s.log[..c], h);
    assert !BlobsPresent(s.log[..c], SyncEnd(s, mark).blobs.onDisk);
  }

  /** With nothing written meanwhile it is always safe. */
  lemma SyncSafe(s: Ns)
    requires Safe(s, [])
    ensures Safe(SyncEnd(s, |s.log|), [])
  {
    hide Named, Tracks, Holders, Occurs, AllFit;
    OpenWindow(s, []);
    forall c, h | |s.log| <= c <= |s.log| && Named(s.log[..c], h) ensures h in Collected(s.blobs).onDisk {
      WindowCut(s, |s.log|, |s.blobs.pending|, c, h);
    }
    SyncedSafe(s, |s.log|);
  }

  /** Dropping everything. */
  const FLUSHED := Ns([], 0, EMPTY, Blobs(map[], [], {}, map[]))

  lemma FlushedSafe()
    ensures Safe(FLUSHED, []) && ExactSidecar(FLUSHED)
  {
    assert Current([]) == EMPTY;
    forall h ensures |Holders(EMPTY.blobs, h)| == 0 {
      assert Holders(EMPTY.blobs, h) == {};
    }
  }

  /** The hash of a key's last separated record since its last tombstone, whatever inline
      records came after it. */
  function LastSeparated(log: seq<Record>, k: Bytes): Option<Hash> {
    if log == [] then None
    else
      var r := log[|log| - 1];
      if r.key == k && r.IsTombstone() then None
      else if r.key == k && r.IsFull() && r.Blob().Some? then r.Blob()
      else LastSeparated(log[..|log| - 1], k)
  }

  /** Replay's sidecar keeps exactly that. */
  lemma {:induction false} ReplaySidecar(log: seq<Record>, k: Bytes)
    requires AllFit(log)
    ensures Get(Replay(EMPTY, 0, 0, log).blobs, k) == LastSeparated(log, k)
    decreases |log|
  {
    ReplayAt(EMPTY, 0, 0, log, k);
    if log != [] {
      var front, r := log[..|log| - 1], log[|log| - 1];
      assert log == front + [r];
      ReplaySidecar(front, k);
      ReplayAt(EMPTY, 0, 0, front, k);
      ReplaySlotAppend(EMPTY.At(k), k, 0, 0, front, [r]);
      hide Replay;
      var s := ReplaySlot(EMPTY.At(k), k, 0, 0, front);
      assert [r][1..] == [];
      assert ReplaySlot(s, k, 0, TotalSize(front), [r]) == ApplySlot(s, k, 0, TotalSize(front), r);
    }
  }

  /** Files without a reference go. */
  function Swept(b: Blobs): Blobs {
    b.(onDisk := set h | h in b.onDisk && b.Count(h) > 0)
  }

  /** A namespace just opened over the records `kept` and the blob files `onDisk`: replayed,
      one reference per sidecar entry, files without a reference swept. */
  ghost predicate Reopened(s: Ns, kept: seq<Record>, onDisk: set<Hash>) {
    && s.log == kept && s.synced == |kept| && s.idx == Replay(EMPTY, 0, 0, kept) && s.blobs.pending == []
    && (forall h :: s.blobs.Count(h) == |Holders(s.idx.blobs, h)|)
    && s.blobs.onDisk == set h | h in onDisk && s.blobs.Count(h) > 0
  }

  /** The sweep deletes no file that a current record names. */
  lemma SweepKeeps(s: Ns, kept: seq<Record>, onDisk: set<Hash>)
    requires AllFit(kept) && Reopened(s, kept, onDisk) && BlobsPresent(kept, onDisk)
    ensures BlobsPresent(kept, s.blobs.onDisk)
  {
    hide Named, Replay;
    ReplayTracks(kept);
    forall h | Named(kept, h) ensures h in s.blobs.onDisk {
      NamedHeld(s.idx, kept, h);
    }
  }

  lemma ReopenedSound(s: Ns, kept: seq<Record>, onDisk: set<Hash>)
    requires AllFit(kept) && Reopened(s, kept, onDisk) && BlobsPresent(kept, onDisk)
    ensures Sound(s, []) && CutsPresent(s.log, s.synced, s.blobs.onDisk)
  {
    hide Named, Replay, Tracks;
    ReplayTracks(kept);
    SweepKeeps(s, kept, onDisk);
    assert kept[..|kept|] == kept;
  }

  /** After a restart every counted blob is on disk if and only if, for every key, the blob of
      its last separated record was: overwritten inline since or not. */
  lemma ReopenedCounted(s: Ns, kept: seq<Record>, onDisk: set<Hash>)
    requires AllFit(kept) && Reopened(s, kept, onDisk)
    ensures CountedOnDisk(s.blobs) <==> forall k :: LastSeparated(kept, k).Some? ==> LastSeparated(kept, k).value in onDisk
  {
    hide Named, Replay, LastSeparated, AllFit, Holders;
    if forall k :: LastSeparated(kept, k).Some? ==> LastSeparated(kept, k).value in onDisk {
      forall h | s.blobs.Count(h) > 0 ensures h in s.blobs.onDisk {
        var k := HolderOf(s.idx.blobs, h);
        ReplaySidecar(kept, k);
      }
    } else {
      var k :| LastSeparated(kept, k).Some? && LastSeparated(kept, k).value !in onDisk;
      ReplaySidecar(kept, k);
      HeldBy(s.idx.blobs, k);
    }
  }

  /** So a reopened namespace is as safe as a fresh one under exactly that condition on the
      kept log and the files found. */
  lemma ReopenedSafe(s: Ns, kept: seq<Record>, onDisk: set<Hash>)
    requires AllFit(kept) && Reopened(s, kept, onDisk) && BlobsPresent(kept, onDisk)
    ensures Safe(s, []) <==> forall k :: LastSeparated(kept, k).Some? ==> LastSeparated(kept, k).value in onDisk
  {
    hide Sound, CutsPresent, CountedOnDisk, Reopened, LastSeparated, AllFit, BlobsPresent;
    ReopenedSound(s, kept, onDisk);
    ReopenedCounted(s, kept, onDisk);
  }

  /** And under exactly that condition the concurrent blob theorems apply again. */
  lemma RestartInit(m: State, s: Ns, kept: seq<Record>, onDisk: set<Hash>)
    requires AllFit(kept) && Reopened(s, kept, onDisk) && m.idx == s.idx && m.blobs == s.blobs
    ensures InitBlobs(m) <==> forall k :: LastSeparated(kept, k).Some? ==> LastSeparated(kept, k).value in onDisk
  {
    hide LastSeparated, AllFit, Holders, Replay;
    ReopenedCounted(s, kept, onDisk);
  }

  lemma HolderOf(blobs: map<Bytes, Hash>, h: Hash) returns (k: Bytes)
    requires |Holders(blobs, h)| > 0
    ensures Get(blobs, k) == Some(h)
  {
    k :| k in Holders(blobs, h);
  }

  lemma HeldBy(blobs: map<Bytes, Hash>, k: Bytes)
    ensures k in blobs ==> |Holders(blobs, blobs[k])| > 0
  {
    if k in blobs {
      assert k in Holders(blobs, blobs[k]);
    }
  }

  lemma PrefixSize(rs: seq<Record>, i: nat, j: nat)
    requires i <= j <= |rs|
    ensures TotalSize(rs[..i]) <= TotalSize(rs[..j])
  {
    assert rs[..j] == rs[..i] + rs[i..j];
    TotalSizeAppend(rs[..i], rs[i..j]);
  }

  /** What a power loss that keeps `t` bytes leaves of the log. */
  ghost predicate Loses(crc: Crc, s: Ns, t: nat, kept: seq<Record>) {
    && AllFit(s.log) && s.synced <= |s.log| && TotalSize(s.log[..s.synced]) <= t <= TotalSize(s.log)
    && kept == Scan(crc, EncodeAll(crc, s.log)[..t])
  }

  /** Power loss: any cut of the file that keeps what was fsynced, in the middle of a batch
      or of a record, leaves a prefix of the records, and every blob that the prefix still
      names is on disk. */
  lemma CrashImage(crc: Crc, s: Ns, owed: seq<Hash>, t: nat, kept: seq<Record>)
    requires Safe(s, owed) && Loses(crc, s, t, kept)
    ensures LongestWithin(s.log, t, kept) && AllFit(kept) && s.synced <= |kept|
    ensures BlobsPresent(kept, s.blobs.onDisk)
  {
    hide Named, EncodeAll, Scan, Tracks, Holders, Occurs;
    ScanTruncated(crc, s.log, t);
    if |kept| < s.synced {
      PrefixSize(s.log, |kept| + 1, s.synced);
      assert false;
    }
    assert kept == s.log[..|kept|];
  }

  /** The index entry of a key points at its latest record, and its sidecar hash is the
      one that record carries. */
  lemma {:induction false} EntryRecord(log: seq<Record>, k: Bytes)
    requires k in Current(log).entries
    ensures var e := Current(log).entries[k];
            && RecordAt(log, e.offset).Some?
            && var r := RecordAt(log, e.offset).value;
            && r.key == k && r.IsFull() && r.tstamp == e.tstamp && r.Size() == e.size && Get(Current(log).blobs, k) == r.Blob()
            && e.offset < TotalSize(log)
    decreases |log|
  {
    var front, r := log[..|log| - 1], log[|log| - 1];
    assert log == front + [r];
    CurrentSnoc(front, r);
    if k in Current(front).entries {
      EntryRecord(front, k);
      RecordAtSnoc(front, r, Current(front).entries[k].offset);
    }
    RecordAtSnoc(front, r, TotalSize(front));
    TotalSizeAppend(front, [r]);
    TotalSizeCons(r, []);
    hide Current, RecordAt, TotalSize;
    RunRecordAt(Current(front), 0, TotalSize(front), r, k);
    assert Current(log).At(k) == RunSlot(Current(front).At(k), k, 0, TotalSize(front), r);
  }

  /** What reading `k` should find: its last full record, unless it was deleted since. */
  function LatestPut(log: seq<Record>, k: Bytes): Option<Record>
    decreases |log|
  {
    if log == [] then None
    else
      var r := log[|log| - 1];
      if r.key != k || r.IsTtlUpdate() then LatestPut(log[..|log| - 1], k)
      else if r.IsTombstone() then None else Some(r)
  }

  /** Its expiry: the one of its last full record or TTL update. */
  function LatestExpiry(log: seq<Record>, k: Bytes): Option<U64>
    decreases |log|
  {
    if log == [] then None
    else
      var r := log[|log| - 1];
      if r.key != k then LatestExpiry(log[..|log| - 1], k)
      else if r.IsTombstone() then None else r.Expiry()
  }

  /** The runtime index has exactly the keys that should be found, each at its record and with
      its expiry. */
  lemma {:induction false} CurrentReads(log: seq<Record>, k: Bytes)
    ensures Current(log).At(k).entry.Some? <==> LatestPut(log, k).Some?
    ensures k in Current(log).entries ==> RecordAt(log, Current(log).entries[k].offset) == LatestPut(log, k)
    ensures Current(log).At(k).ttl == LatestExpiry(log, k)
    decreases |log|
  {
    if log != [] {
      var front, r := log[..|log| - 1], log[|log| - 1];
      assert log == front + [r];
      CurrentReads(front, k);
      CurrentSnoc(front, r);
      FullOtherwise(r);
      if k in Current(front).entries {
        EntryRecord(front, k);
        RecordAtSnoc(front, r, Current(front).entries[k].offset);
      }
      RecordAtSnoc(front, r, TotalSize(front));
      hide Current, RecordAt, TotalSize;
      RunRecordAt(Current(front), 0, TotalSize(front), r, k);
      assert Current(log).At(k) == RunSlot(Current(front).At(k), k, 0, TotalSize(front), r);
    }
  }

  /** The bytes an index entry points at. */
  function Fetched(crc: Crc, file: Bytes, e: IndexEntry): Option<Record> {
    if e.offset + e.size <= |file| then ReadRecord(crc, file[e.offset..e.offset + e.size]) else None
  }

  /** In a namespace whose index agrees with its log, reading a key's bytes gives the record
      that should be found. */
  lemma SoundReads(crc: Crc, s: Ns, k: Bytes)
    requires Sound(s, [])
    ensures k in s.idx.entries <==> LatestPut(s.log, k).Some?
    ensures k in s.idx.entries ==>
              && Fetched(crc, EncodeAll(crc, s.log), s.idx.entries[k]) == LatestPut(s.log, k)
              && s.idx.entries[k].tstamp == LatestPut(s.log, k).value.tstamp
              && s.idx.At(k).ttl == LatestExpiry(s.log, k)
  {
    hide Current, RecordAt, LatestPut, LatestExpiry, EncodeAll, Encode, ReadRecord, Holders, Occurs, Blobs.Count;
    assert Agrees(Current(s.log).At(k), s.idx.At(k));
    CurrentReads(s.log, k);
    if k in s.idx.entries {
      EntryRecord(s.log, k);
      var e, r := s.idx.entries[k], LatestPut(s.log, k).value;
      RecordBytes(crc, s.log, e.offset);
      ReadEncoded(crc, r, []);
      assert Encode(crc, r) + [] == Encode(crc, r);
    }
  }

  lemma LatestPutSnoc(log: seq<Record>, r: Record, k: Bytes)
    ensures LatestPut(log + [r], k) == if r.key != k || r.IsTtlUpdate() then LatestPut(log, k) else if r.IsTombstone() then None else Some(r)
  {
    assert (log + [r])[..|log|] == log;
  }

  /** The last mention of a key in a batch decides what is found. */
  lemma {:induction false} LatestInBatch(log: seq<Record>, rs: seq<Record>, i: nat)
    requires i < |rs| && rs[i].IsFull() && forall j :: i < j < |rs| ==> rs[j].key != rs[i].key
    ensures LatestPut(log + rs, rs[i].key) == Some(rs[i])
    decreases |rs|
  {
    var n := |rs| - 1;
    assert log + rs == (log + rs[..n]) + [rs[n]];
    LatestPutSnoc(log + rs[..n], rs[n], rs[i].key);
    if i < n {
      LatestInBatch(log, rs[..n], i);
    }
  }

  /** Whatever replay recovers after the power loss: each key is a record of the kept
      prefix, and if that record is separated its blob is on disk and in the sidecar. */
  lemma RecoveredKeysReadable(kept: seq<Record>, onDisk: set<Hash>, k: Bytes)
    requires AllFit(kept) && BlobsPresent(kept, onDisk) && k in Replay(EMPTY, 0, 0, kept).entries
    ensures var idx := Replay(EMPTY, 0, 0, kept);
            && RecordAt(kept, idx.entries[k].offset).Some?
            && var r := RecordAt(kept, idx.entries[k].offset).value;
            && r.key == k && r.tstamp == idx.entries[k].tstamp && LatestPut(kept, k) == Some(r)
            && (r.Blob().Some? ==> r.Blob().value in onDisk && Get(idx.blobs, k) == r.Blob())
  {
    hide Current, Replay, RecordAt;
    ReplayTracks(kept);
    assert Agrees(Current(kept).At(k), Replay(EMPTY, 0, 0, kept).At(k));
    EntryRecord(kept, k);
    CurrentReads(kept, k);
    var blob := Get(Current(kept).blobs, k);
    assert blob.Some? ==> Named(kept, blob.value);
  }

  /** The state with one reference more for each of `hs`. */
  function Took(s: Ns, hs: seq<Hash>): Ns {
    s.(blobs := TakeAll(s.blobs, hs))
  }

  lemma {:induction false} TookSafe(s: Ns, hs: seq<Hash>)
    requires Safe(s, [])
    ensures Safe(Took(s, hs), hs)
    decreases |hs|
  {
    hide Safe, TakeRef;
    if hs != [] {
      var n := |hs| - 1;
      TookSafe(s, hs[..n]);
      TakeSafe(Took(s, hs[..n]), hs[..n], hs[n]);
      OwedAnyOrder(Took(s, hs), hs[..n], hs[n]);
      assert hs == hs[..n] + [hs[n]];
    }
  }

  lemma OwedAnyOrder(s: Ns, hs: seq<Hash>, h: Hash)
    requires Safe(s, [h] + hs)
    ensures Safe(s, hs + [h])
  {
    hide Tracks, Holders, Occurs, CountedOnDisk, CutsPresent, AllFit, Blobs.Count;
    forall g ensures Occurs(hs + [h], g) == Occurs([h] + hs, g) {
      OccursAppend(hs, [h], g);
      OccursAppend([h], hs, g);
    }
  }

  lemma SafeWithout(s: Ns, owed: seq<Hash>)
    requires Safe(s, owed)
    ensures Safe(s, [])
  {
    hide Tracks, Holders, CountedOnDisk, CutsPresent, AllFit;
  }

  lemma {:induction false} TookSound(s: Ns, hs: seq<Hash>)
    requires Sound(s, [])
    ensures Sound(Took(s, hs), hs)
    decreases |hs|
  {
    hide Tracks, Holders, AllFit;
    if hs != [] {
      var n := |hs| - 1;
      TookSound(s, hs[..n]);
      hide Occurs;
      forall g ensures Occurs(hs, g) == Occurs(hs[..n], g) + if hs[n] == g then 1 else 0 {
        assert hs == hs[..n] + [hs[n]];
        OccursAppend(hs[..n], [hs[n]], g);
        OccursOne(g, Some(hs[n]));
      }
    }
  }

  /** Taking the references of some records and committing them keeps a namespace safe. */
  lemma WriteSafe(s: Ns, rs: seq<Record>)
    requires Safe(s, []) && AllFit(rs)
    ensures Safe(CommitAll(Took(s, RecordHashes(rs)), rs), [])
  {
    hide Safe, CommitAll, TakeAll, RecordHashes, AllFit;
    TookSafe(s, RecordHashes(rs));
    assert RecordHashes(rs) + [] == RecordHashes(rs);
    CommitSafe(Took(s, RecordHashes(rs)), rs, []);
  }

  lemma {:induction false} CommitSound(s: Ns, rs: seq<Record>, owed: seq<Hash>)
    requires Sound(s, RecordHashes(rs) + owed) && AllFit(rs)
    ensures Sound(CommitAll(s, rs), owed)
    decreases |rs|
  {
    hide Sound, CommitOne, Own, AllFit;
    if rs == [] {
      assert RecordHashes(rs) + owed == owed;
    } else {
      var n := |rs| - 1;
      FrontFits(rs);
      OweLastSound(s, rs, owed);
      CommitSound(s, rs[..n], Own(rs[n]) + owed);
      CommitOneSound(CommitAll(s, rs[..n]), rs[n], owed);
    }
  }

  lemma OweLastSound(s: Ns, rs: seq<Record>, owed: seq<Hash>)
    requires rs != [] && Sound(s, RecordHashes(rs) + owed)
    ensures Sound(s, RecordHashes(rs[..|rs| - 1]) + (Own(rs[|rs| - 1]) + owed))
  {
    hide Tracks, Holders, Occurs, RecordHashes, Own, Blobs.Count, AllFit;
    var n := |rs| - 1;
    RecordHashesSnoc(rs);
    OwnIs(rs[n]);
    assert RecordHashes(rs[..n]) + (Own(rs[n]) + owed) == RecordHashes(rs) + owed;
  }

  lemma WriteSound(s: Ns, rs: seq<Record>)
    requires Sound(s, []) && AllFit(rs)
    ensures Sound(CommitAll(Took(s, RecordHashes(rs)), rs), [])
  {
    hide Sound, CommitAll, TakeAll, RecordHashes, AllFit;
    TookSound(s, RecordHashes(rs));
    assert RecordHashes(rs) + [] == RecordHashes(rs);
    CommitSound(Took(s, RecordHashes(rs)), rs, []);
  }

  /** The blobs a batch supersedes, in order. */
  function DeadOf(idx: Index, offset: nat, rs: seq<Record>): seq<Hash> {
    if rs == [] then []
    else
      var n := |rs| - 1;
      var dead := Dead(RunAll(idx, 0, offset, rs[..n]), rs[n]);
      DeadOf(idx, offset, rs[..n]) + if dead.Some? then [dead.value] else []
  }

  lemma {:induction false} UnrefAllSnoc(b: Blobs, hs: seq<Hash>, h: Hash)
    ensures UnrefAll(b, hs + [h]) == UnrefAll(b, hs).Unref(h)
    decreases |hs|
  {
    hide Blobs.Unref;
    if hs == [] {
      assert hs + [h] == [h];
    } else {
      assert (hs + [h])[1..] == hs[1..] + [h];
      UnrefAllSnoc(b.Unref(hs[0]), hs[1..], h);
    }
  }

  /** Indexing a whole batch first and dropping references after comes to the same. */
  lemma {:induction false} CommitSplit(s: Ns, rs: seq<Record>)
    ensures CommitAll(s, rs) == Ns(s.log + rs, s.synced, RunAll(s.idx, 0, TotalSize(s.log), rs), UnrefAll(s.blobs, DeadOf(s.idx, TotalSize(s.log), rs)))
    decreases |rs|
  {
    hide RunRecord, Blobs.Unref, Dead;
    if rs == [] {
      assert s.log + rs == s.log;
    } else {
      var n := |rs| - 1;
      CommitSplit(s, rs[..n]);
      CommitLast(s, rs);
      hide CommitAll;
      var base := TotalSize(s.log);
      var before := RunAll(s.idx, 0, base, rs[..n]);
      assert rs == rs[..n] + [rs[n]];
      assert s.log + rs == (s.log + rs[..n]) + [rs[n]];
      TotalSizeAppend(s.log, rs[..n]);
      RunAllSnoc(s.idx, base, rs[..n], rs[n]);
      DeadLast(s.blobs, s.idx, base, rs);
    }
  }

  lemma DeadLast(b: Blobs, idx: Index, offset: nat, rs: seq<Record>)
    requires rs != []
    ensures var n := |rs| - 1;
            UnrefAll(b, DeadOf(idx, offset, rs)) == Release(UnrefAll(b, DeadOf(idx, offset, rs[..n])), Dead(RunAll(idx, 0, offset, rs[..n]), rs[n]))
  {
    hide Blobs.Unref, Dead, RunAll, UnrefAll;
    var n := |rs| - 1;
    var dead := Dead(RunAll(idx, 0, offset, rs[..n]), rs[n]);
    if dead.Some? {
      UnrefAllSnoc(b, DeadOf(idx, offset, rs[..n]), dead.value);
    } else {
      assert DeadOf(idx, offset, rs[..n]) + [] == DeadOf(idx, offset, rs[..n]);
    }
  }

  lemma CommitLast(s: Ns, rs: seq<Record>)
    requires rs != []
    ensures CommitAll(s, rs) == CommitOne(CommitAll(s, rs[..|rs| - 1]), rs[|rs| - 1])
  {
  }

  lemma RunAllSnoc(idx: Index, offset: nat, rs: seq<Record>, r: Record)
    ensures RunAll(idx, 0, offset, rs + [r]) == RunRecord(RunAll(idx, 0, offset, rs), 0, offset + TotalSize(rs), r)
  {
    hide RunRecord;
    RunAllAppend(idx, 0, offset, rs, [r]);
    assert [r][1..] == [];
  }

  lemma {:induction false} TookWindow(s: Ns, hs: seq<Hash>, mark: nat, m: nat)
    requires Window(s, mark, m)
    ensures Window(Took(s, hs), mark, m)
    ensures QueuedWereNamed(s, mark, m) ==> QueuedWereNamed(Took(s, hs), mark, m)
    ensures ExactSidecar(s) ==> ExactSidecar(Took(s, hs))
    decreases |hs|
  {
    hide Window, NamedSince, Current;
    if hs != [] {
      TookWindow(s, hs[..|hs| - 1], mark, m);
      TakeWindow(Took(s, hs[..|hs| - 1]), mark, m, hs[|hs| - 1]);
    }
  }

  lemma {:induction false} CommitWindow(s: Ns, rs: seq<Record>, owed: seq<Hash>, mark: nat, m: nat)
    requires Sound(s, RecordHashes(rs) + owed) && AllFit(rs) && ExactSidecar(s) && Window(s, mark, m) && QueuedWereNamed(s, mark, m)
    ensures Window(CommitAll(s, rs), mark, m) && QueuedWereNamed(CommitAll(s, rs), mark, m) && ExactSidecar(CommitAll(s, rs))
    decreases |rs|
  {
    hide Sound, Window, QueuedWereNamed, ExactSidecar, CommitOne, Own, AllFit, RecordHashes;
    if rs != [] {
      var n := |rs| - 1;
      FrontFits(rs);
      OweLastSound(s, rs, owed);
      CommitWindow(s, rs[..n], Own(rs[n]) + owed, mark, m);
      CommitSound(s, rs[..n], Own(rs[n]) + owed);
      var mid := CommitAll(s, rs[..n]);
      WindowBounds(mid, mark, m);
      CommitOneWindow(mid, rs[n], owed, mark, m);
      CommitOneQueues(mid, rs[n], mark, m);
      CommitOneExact(mid, rs[n]);
    }
  }

  /** Any write keeps a window open. */
  lemma WriteWindow(s: Ns, rs: seq<Record>, mark: nat, m: nat)
    requires Sound(s, []) && AllFit(rs) && ExactSidecar(s) && Window(s, mark, m) && QueuedWereNamed(s, mark, m)
    ensures var s' := CommitAll(Took(s, RecordHashes(rs)), rs);
            Window(s', mark, m) && QueuedWereNamed(s', mark, m) && ExactSidecar(s')
  {
    hide Sound, Window, QueuedWereNamed, ExactSidecar, CommitAll, TakeAll, RecordHashes, AllFit;
    TookSound(s, RecordHashes(rs));
    TookWindow(s, RecordHashes(rs), mark, m);
    assert RecordHashes(rs) + [] == RecordHashes(rs);
    CommitWindow(Took(s, RecordHashes(rs)), rs, [], mark, m);
  }
}
