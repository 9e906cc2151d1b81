/** Log segments on disk and what reopening a directory of them recovers. */
module Segments {
  import opened Types
  import opened Records
  import opened Footer
  import opened NamespaceIndex
  import opened Recover
  import opened LogReplay

  /** A data file: its records and, once sealed, its footer. */
  datatype SegFile = SegFile(recs: seq<Record>, footer: Option<seq<FooterEntry>>)

  /** The visible data files by id; a file still under its temporary name is not one. */
  type Dir = map<nat, SegFile>

  function ApplyFooter(idx: Index, id: nat, es: seq<FooterEntry>): Index
    decreases |es|
  {
    if es == [] then idx
    else
      var e := es[0];
      ApplyFooter(idx.Insert(e.key, IndexEntry(id, e.offset, e.size, e.tstamp), e.expires).SetBlob(e.key, e.hash), id, es[1..])
  }

  /** A sealed file is read through its footer, any other file record by record. */
  function ReopenFile(idx: Index, id: nat, f: SegFile): Index {
    match f.footer
    case Some(es) => ApplyFooter(idx, id, es)
    case None => Replay(idx, id, 0, f.recs)
  }

  /** The index recovered from the files with ids below `n`, in ascending order. */
  function Reopen(dir: Dir, n: nat): Index {
    if n == 0 then EMPTY
    else if n - 1 in dir then ReopenFile(Reopen(dir, n - 1), n - 1, dir[n - 1])
    else Reopen(dir, n - 1)
  }

  predicate Lists(es: seq<FooterEntry>, k: Bytes) {
    exists i :: 0 <= i < |es| && es[i].key == k
  }

  /** A record that decides whether its key is present: not a TTL update, and not so
      large that replay skips it. */
  predicate Decides(r: Record, k: Bytes) {
    r.key == k && !r.IsTtlUpdate() && (r.IsTombstone() || r.Fits())
  }

  predicate Writes(rs: seq<Record>, k: Bytes) {
    exists i :: 0 <= i < |rs| && Decides(rs[i], k)
  }

  /** Reopening the file says something about the entry of `k`. */
  predicate Names(f: SegFile, k: Bytes) {
    match f.footer
    case Some(es) => Lists(es, k)
    case None => Writes(f.recs, k)
  }

  /** Every mention of `k` in the footer is this entry. */
  predicate Consistent(es: seq<FooterEntry>, k: Bytes, e: IndexEntry) {
    forall i :: 0 <= i < |es| && es[i].key == k ==> es[i].offset == e.offset && es[i].size == e.size && es[i].tstamp == e.tstamp
  }

  lemma ListsCons(es: seq<FooterEntry>, k: Bytes)
    requires es != []
    ensures Lists(es, k) <==> es[0].key == k || Lists(es[1..], k)
  {
    if Lists(es[1..], k) {
      var i :| 0 <= i < |es[1..]| && es[1..][i].key == k;
      assert es[i + 1].key == k;
    }
    if Lists(es, k) && es[0].key != k {
      var i :| 0 <= i < |es| && es[i].key == k;
      assert es[1..][i - 1].key == k;
    }
  }

  lemma {:induction false} ApplyFooterAt(idx: Index, id: nat, es: seq<FooterEntry>, k: Bytes, e: IndexEntry)
    requires e.fileId == id && Consistent(es, k, e)
    ensures ApplyFooter(idx, id, es).At(k).entry == if Lists(es, k) then Some(e) else idx.At(k).entry
    decreases |es|
  {
    if es != [] {
      var x := es[0];
      var next := idx.Insert(x.key, IndexEntry(id, x.offset, x.size, x.tstamp), x.expires).SetBlob(x.key, x.hash);
      ListsCons(es, k);
      ApplyFooterAt(next, id, es[1..], k, e);
    }
  }

  lemma WritesCons(rs: seq<Record>, k: Bytes)
    requires rs != []
    ensures Writes(rs, k) <==> Decides(rs[0], k) || Writes(rs[1..], k)
  {
    hide Decides;
    if Writes(rs[1..], k) {
      var i :| 0 <= i < |rs[1..]| && Decides(rs[1..][i], k);
      assert rs[i + 1] == rs[1..][i];
    }
    if Writes(rs, k) && !Decides(rs[0], k) {
      var i :| 0 <= i < |rs| && Decides(rs[i], k);
      assert rs[1..][i - 1] == rs[i];
    }
  }

  lemma WritesSnoc(rs: seq<Record>, r: Record, k: Bytes)
    ensures Writes(rs + [r], k) <==> Writes(rs, k) || Decides(r, k)
  {
    hide Decides;
    assert (rs + [r])[|rs|] == r;
    if Writes(rs, k) {
      var i :| 0 <= i < |rs| && Decides(rs[i], k);
      assert (rs + [r])[i] == rs[i];
    }
  }

  lemma {:induction false} UnwrittenEntry(s: Slot, k: Bytes, id: nat, offset: nat, rs: seq<Record>)
    requires !Writes(rs, k)
    ensures ReplaySlot(s, k, id, offset, rs).entry == s.entry
    decreases |rs|
  {
    if rs != [] {
      WritesCons(rs, k);
      UnwrittenEntry(ApplySlot(s, k, id, offset, rs[0]), k, id, offset + rs[0].Size(), rs[1..]);
    }
  }

  /** Two replays of a file that writes `k` agree on its entry whatever came before. */
  lemma {:induction false} WrittenEntry(s: Slot, s': Slot, k: Bytes, id: nat, offset: nat, rs: seq<Record>)
    requires Writes(rs, k) || s.entry == s'.entry
    ensures ReplaySlot(s, k, id, offset, rs).entry == ReplaySlot(s', k, id, offset, rs).entry
    decreases |rs|
  {
    if rs != [] {
      WritesCons(rs, k);
      WrittenEntry(ApplySlot(s, k, id, offset, rs[0]), ApplySlot(s', k, id, offset, rs[0]), k, id, offset + rs[0].Size(), rs[1..]);
    }
  }

  /** Reopening `f` gives `k` the entry `e`, whatever earlier files said. */
  ghost predicate Resolves(f: SegFile, id: nat, k: Bytes, e: IndexEntry) {
    && e.fileId == id && Names(f, k) && AllFit(f.recs)
    && match f.footer
       case Some(es) => Consistent(es, k, e)
       case None => ReplaySlot(Slot(None, None, None), k, id, 0, f.recs).entry == Some(e)
  }

  lemma ResolvesReopen(idx: Index, f: SegFile, id: nat, k: Bytes, e: IndexEntry)
    requires Resolves(f, id, k, e)
    ensures ReopenFile(idx, id, f).At(k).entry == Some(e)
  {
    hide Lists, Writes;
    match f.footer
    case Some(es) => ApplyFooterAt(idx, id, es, k, e);
    case None =>
      ReplayAt(idx, id, 0, f.recs, k);
      WrittenEntry(idx.At(k), Slot(None, None, None), k, id, 0, f.recs);
  }

  lemma UnnamedReopen(idx: Index, f: SegFile, id: nat, k: Bytes)
    requires !Names(f, k)
    ensures ReopenFile(idx, id, f).At(k).entry == idx.At(k).entry
  {
    hide Writes;
    match f.footer
    case Some(es) => ApplyFooterAt(idx, id, es, k, IndexEntry(id, 0, 0, 0));
    case None =>
      ReplayAt(idx, id, 0, f.recs, k);
      UnwrittenEntry(idx.At(k), k, id, 0, f.recs);
  }

  /** The file of `e` holds the record of `k`, reopening it gives `e`, and no newer file
      names the key. */
  ghost predicate Serves(dir: Dir, k: Bytes, e: IndexEntry) {
    && e.fileId in dir
    && Resolves(dir[e.fileId], e.fileId, k, e)
    && Holds(dir[e.fileId], k, e) && Hashed(dir[e.fileId], k, e)
    && forall id :: id in dir && id > e.fileId ==> !Names(dir[id], k)
  }

  /** Every mention of `k` in the footer carries this blob hash. */
  predicate HashesAs(es: seq<FooterEntry>, k: Bytes, h: Option<Hash>) {
    forall i :: 0 <= i < |es| && es[i].key == k ==> es[i].hash == h
  }

  /** A footer carries the blob hash of the record it points at. */
  predicate Hashed(f: SegFile, k: Bytes, e: IndexEntry) {
    f.footer.Some? && RecordAt(f.recs, e.offset).Some? ==> HashesAs(f.footer.value, k, RecordAt(f.recs, e.offset).value.Blob())
  }

  /** The bytes at the entry's place are the record it describes. */
  predicate Holds(f: SegFile, k: Bytes, e: IndexEntry) {
    && RecordAt(f.recs, e.offset).Some?
    && var r := RecordAt(f.recs, e.offset).value;
       r.key == k && r.IsFull() && r.tstamp == e.tstamp && r.Size() == e.size
  }

  function RecordOf(dir: Dir, e: IndexEntry): Option<Record> {
    if e.fileId in dir then RecordAt(dir[e.fileId].recs, e.offset) else None
  }

  /** The latest record of every live key: what the files and the index say together. */
  function Latest(dir: Dir, idx: Index): map<Bytes, Option<Record>> {
    map k | k in idx.entries :: RecordOf(dir, idx.entries[k])
  }

  /** The blob sidecar has the hash of the key's latest record. */
  ghost predicate Carries(dir: Dir, idx: Index, k: Bytes)
    requires k in idx.entries
  {
    var r := RecordOf(dir, idx.entries[k]);
    r.Some? && idx.At(k).blob == r.value.Blob()
  }

  ghost predicate ServesAll(dir: Dir, idx: Index) {
    forall k :: k in idx.entries ==> Serves(dir, k, idx.entries[k]) && Carries(dir, idx, k)
  }

  /** The live segment of a key is the newest file that names it, so reopening finds it. */
  lemma {:induction false} ReopenServed(dir: Dir, k: Bytes, e: IndexEntry, n: nat)
    requires Serves(dir, k, e) && n > e.fileId
    ensures Reopen(dir, n).At(k).entry == Some(e)
  {
    hide Resolves, Names, Holds, ReopenFile;
    if n - 1 == e.fileId {
      ResolvesReopen(Reopen(dir, n - 1), dir[n - 1], n - 1, k, e);
    } else {
      ReopenServed(dir, k, e, n - 1);
      if n - 1 in dir {
        UnnamedReopen(Reopen(dir, n - 1), dir[n - 1], n - 1, k);
      }
    }
  }

  lemma {:induction false} FooterBlob(idx: Index, id: nat, es: seq<FooterEntry>, k: Bytes, h: Option<Hash>)
    requires HashesAs(es, k, h)
    ensures ApplyFooter(idx, id, es).At(k).blob == if Lists(es, k) then h else idx.At(k).blob
    decreases |es|
  {
    if es != [] {
      var x := es[0];
      ListsCons(es, k);
      FooterBlob(idx.Insert(x.key, IndexEntry(id, x.offset, x.size, x.tstamp), x.expires).SetBlob(x.key, x.hash), id, es[1..], k, h);
    }
  }

  lemma UnlistedBlob(es: seq<FooterEntry>, k: Bytes, h: Option<Hash>)
    ensures !Lists(es, k) ==> HashesAs(es, k, h)
  {
  }

  lemma {:induction false} UnwrittenBlob(s: Slot, k: Bytes, id: nat, offset: nat, rs: seq<Record>)
    requires !Writes(rs, k)
    ensures ReplaySlot(s, k, id, offset, rs).blob == s.blob
    decreases |rs|
  {
    if rs != [] {
      WritesCons(rs, k);
      UnwrittenBlob(ApplySlot(s, k, id, offset, rs[0]), k, id, offset + rs[0].Size(), rs[1..]);
    }
  }

  /** Replaying the file of a separated record leaves its hash in the sidecar. */
  lemma {:induction false} WrittenBlob(s: Slot, k: Bytes, id: nat, rs: seq<Record>, e: IndexEntry)
    requires Writes(rs, k) && ReplaySlot(s, k, id, 0, rs).entry == Some(e) && RecordAt(rs, e.offset).Some?
    ensures var blob := RecordAt(rs, e.offset).value.Blob(); blob.Some? ==> ReplaySlot(s, k, id, 0, rs).blob == blob
    decreases |rs|
  {
    var front, r := rs[..|rs| - 1], rs[|rs| - 1];
    assert rs == front + [r];
    WritesSnoc(front, r, k);
    ReplaySlotAppend(s, k, id, 0, front, [r]);
    OneRecord(ReplaySlot(s, k, id, 0, front), k, id, TotalSize(front), r);
    RecordAtSnoc(front, r, e.offset);
    if !Decides(r, k) && RecordAt(front, e.offset).Some? {
      WrittenBlob(s, k, id, front, e);
    }
    hide ReplaySlot, Writes, RecordAt;
    if !Decides(r, k) {
      WrittenEntryBound(s, k, id, front, e);
    }
  }

  /** The entry a file gives a key it writes lies within the file. */
  lemma {:induction false} WrittenEntryBound(s: Slot, k: Bytes, id: nat, rs: seq<Record>, e: IndexEntry)
    requires Writes(rs, k) && ReplaySlot(s, k, id, 0, rs).entry == Some(e)
    ensures e.offset < TotalSize(rs)
    decreases |rs|
  {
    var front, r := rs[..|rs| - 1], rs[|rs| - 1];
    assert rs == front + [r];
    WritesSnoc(front, r, k);
    ReplaySlotAppend(s, k, id, 0, front, [r]);
    OneRecord(ReplaySlot(s, k, id, 0, front), k, id, TotalSize(front), r);
    TotalSizeAppend(front, [r]);
    TotalSizeCons(r, []);
    if !Decides(r, k) {
      WrittenEntryBound(s, k, id, front, e);
    }
  }

  /** What reopening makes of a key's blob: exactly the hash of its record when its file is
      sealed, and at least that hash when it is not. */
  ghost predicate Refers(slot: Slot, f: SegFile, r: Record) {
    (f.footer.Some? || r.Blob().Some?) ==> slot.blob == r.Blob()
  }

  lemma ServedFileBlob(idx: Index, dir: Dir, k: Bytes, e: IndexEntry)
    requires Serves(dir, k, e)
    ensures RecordOf(dir, e).Some? && Refers(ReopenFile(idx, e.fileId, dir[e.fileId]).At(k), dir[e.fileId], RecordOf(dir, e).value)
  {
    hide Lists, Writes, ReplaySlot, RecordAt, ApplyFooter, HashesAs;
    var f := dir[e.fileId];
    match f.footer
    case Some(es) => FooterBlob(idx, e.fileId, es, k, RecordOf(dir, e).value.Blob());
    case None =>
      ReplayAt(idx, e.fileId, 0, f.recs, k);
      WrittenEntry(idx.At(k), Slot(None, None, None), k, e.fileId, 0, f.recs);
      WrittenBlob(idx.At(k), k, e.fileId, f.recs, e);
  }

  lemma UnnamedBlob(idx: Index, f: SegFile, id: nat, k: Bytes)
    requires !Names(f, k)
    ensures ReopenFile(idx, id, f).At(k).blob == idx.At(k).blob
  {
    hide Lists, Writes, ReplaySlot, ApplyFooter, HashesAs;
    match f.footer
    case Some(es) =>
      UnlistedBlob(es, k, idx.At(k).blob);
      FooterBlob(idx, id, es, k, idx.At(k).blob);
    case None =>
      ReplayAt(idx, id, 0, f.recs, k);
      UnwrittenBlob(idx.At(k), k, id, 0, f.recs);
  }

  /** Reopening gives a live key the blob of its latest record. */
  lemma {:induction false} ReopenBlob(dir: Dir, k: Bytes, e: IndexEntry, n: nat)
    requires Serves(dir, k, e) && n > e.fileId
    ensures RecordOf(dir, e).Some? && Refers(Reopen(dir, n).At(k), dir[e.fileId], RecordOf(dir, e).value)
  {
    hide Resolves, Names, Holds, Hashed, ReopenFile, RecordOf, Refers;
    ServedFileBlob(Reopen(dir, e.fileId), dir, k, e);
    if n - 1 != e.fileId {
      ReopenBlob(dir, k, e, n - 1);
      if n - 1 in dir {
        UnnamedBlob(Reopen(dir, n - 1), dir[n - 1], n - 1, k);
        SameRefers(Reopen(dir, n - 1).At(k), Reopen(dir, n).At(k), dir[e.fileId], RecordOf(dir, e).value);
      }
    }
  }

  lemma SameRefers(a: Slot, b: Slot, f: SegFile, r: Record)
    requires Refers(a, f, r) && b.blob == a.blob
    ensures Refers(b, f, r)
  {
  }

  /** Reopening recovers every live key with its latest record and its revision. */
  lemma ReopenLatest(dir: Dir, idx: Index, n: nat)
    requires ServesAll(dir, idx) && forall id :: id in dir ==> id < n
    ensures forall k :: k in idx.entries ==>
              && k in Reopen(dir, n).entries
              && Reopen(dir, n).entries[k] == idx.entries[k]
              && RecordOf(dir, Reopen(dir, n).entries[k]) == Latest(dir, idx)[k]
              && Latest(dir, idx)[k].Some? && Latest(dir, idx)[k].value.key == k
              && Latest(dir, idx)[k].value.tstamp == idx.entries[k].tstamp
              && idx.entries[k].fileId in dir && Refers(Reopen(dir, n).At(k), dir[idx.entries[k].fileId], Latest(dir, idx)[k].value)
  {
    hide Resolves, Names, Reopen, Hashed, Refers;
    forall k | k in idx.entries
      ensures k in Reopen(dir, n).entries && Reopen(dir, n).entries[k] == idx.entries[k]
      ensures idx.entries[k].fileId in dir && RecordOf(dir, idx.entries[k]).Some?
      ensures Refers(Reopen(dir, n).At(k), dir[idx.entries[k].fileId], RecordOf(dir, idx.entries[k]).value)
    {
      ReopenServed(dir, k, idx.entries[k], n);
      ReopenBlob(dir, k, idx.entries[k], n);
      assert Get(Reopen(dir, n).entries, k) == Some(idx.entries[k]);
    }
  }

  lemma {:induction false} RecordAtBound(rs: seq<Record>, offset: nat)
    requires RecordAt(rs, offset).Some?
    ensures offset < TotalSize(rs)
    decreases |rs|
  {
    if offset >= rs[0].Size() {
      RecordAtBound(rs[1..], offset - rs[0].Size());
    }
  }

  /** Appending a record to the unsealed file. */
  function Appended(dir: Dir, id: nat, r: Record): Dir
    requires id in dir
  {
    dir[id := dir[id].(recs := dir[id].recs + [r])]
  }

  predicate Unsealed(dir: Dir, id: nat) {
    && id in dir && dir[id].footer.None? && AllFit(dir[id].recs)
    && forall j :: j in dir ==> j <= id
  }

  /** One more record leaves the keys it does not decide as they were. */
  lemma AppendServes(dir: Dir, id: nat, r: Record, k: Bytes, e: IndexEntry)
    requires Unsealed(dir, id) && r.Fits() && !Decides(r, k)
    requires Serves(dir, k, e)
    ensures Serves(Appended(dir, id, r), k, e)
    ensures RecordOf(Appended(dir, id, r), e) == RecordOf(dir, e)
  {
    hide Writes;
    WritesSnoc(dir[id].recs, r, k);
    if e.fileId == id {
      var rs := dir[id].recs;
      ReplaySlotAppend(Slot(None, None, None), k, id, 0, rs, [r]);
      RecordAtBound(rs, e.offset);
      RecordAtSnoc(rs, r, e.offset);
    }
  }

  /** A full record makes the unsealed file serve its key from the place it was put. */
  lemma PutServes(dir: Dir, id: nat, r: Record)
    requires Unsealed(dir, id) && r.Fits() && r.IsFull()
    ensures var e := IndexEntry(id, TotalSize(dir[id].recs), r.Size(), r.tstamp);
            && Serves(Appended(dir, id, r), r.key, e)
            && RecordOf(Appended(dir, id, r), e) == Some(r)
  {
    hide Writes;
    var rs := dir[id].recs;
    WritesSnoc(rs, r, r.key);
    ReplaySlotAppend(Slot(None, None, None), r.key, id, 0, rs, [r]);
    RecordAtSnoc(rs, r, TotalSize(rs));
  }

  /** A footer for file `id`: exactly the live keys of that file, each as the index has it. */
  ghost predicate FooterFor(es: seq<FooterEntry>, idx: Index, id: nat) {
    && (forall i :: 0 <= i < |es| ==>
          && es[i].key in idx.entries
          && var e := idx.entries[es[i].key];
             && e.fileId == id && es[i].offset == e.offset && es[i].size == e.size && es[i].tstamp == e.tstamp
             && es[i].expires == idx.At(es[i].key).ttl && es[i].hash == idx.At(es[i].key).blob)
    && (forall k :: k in idx.entries && idx.entries[k].fileId == id ==> Lists(es, k))
  }

  function Sealed(dir: Dir, id: nat, es: seq<FooterEntry>): Dir
    requires id in dir
  {
    dir[id := dir[id].(footer := Some(es))]
  }

  /** Sealing a file with its footer keeps every live key served. */
  lemma SealServes(dir: Dir, idx: Index, id: nat, es: seq<FooterEntry>, k: Bytes)
    requires id in dir && FooterFor(es, idx, id)
    requires k in idx.entries && Serves(dir, k, idx.entries[k]) && Carries(dir, idx, k)
    ensures Serves(Sealed(dir, id, es), k, idx.entries[k])
    ensures RecordOf(Sealed(dir, id, es), idx.entries[k]) == RecordOf(dir, idx.entries[k])
  {
    hide Writes, ReplaySlot;
  }

  /** Files that do not name the key can come, and files other than its own can go. */
  lemma SwapServes(dir: Dir, dir': Dir, k: Bytes, e: IndexEntry)
    requires Serves(dir, k, e)
    requires e.fileId in dir' && dir'[e.fileId] == dir[e.fileId]
    requires forall id :: id in dir' ==> (id in dir && dir'[id] == dir[id]) || !Names(dir'[id], k)
    ensures Serves(dir', k, e)
    ensures RecordOf(dir', e) == RecordOf(dir, e)
  {
    hide Names, Resolves;
  }

  predicate AllSealed(dir: Dir) {
    forall id :: id in dir ==> dir[id].footer.Some?
  }

  /** Some file with id below `n` lists the key in its footer. */
  predicate ListedBelow(dir: Dir, n: nat, k: Bytes) {
    exists id :: 0 <= id < n && id in dir && dir[id].footer.Some? && Lists(dir[id].footer.value, k)
  }

  lemma {:induction false} FooterDomain(idx: Index, id: nat, es: seq<FooterEntry>, k: Bytes)
    ensures ApplyFooter(idx, id, es).At(k).entry.Some? <==> idx.At(k).entry.Some? || Lists(es, k)
    decreases |es|
  {
    if es != [] {
      var x := es[0];
      ListsCons(es, k);
      FooterDomain(idx.Insert(x.key, IndexEntry(id, x.offset, x.size, x.tstamp), x.expires).SetBlob(x.key, x.hash), id, es[1..], k);
    }
  }

  /** After a clean shutdown a key comes back exactly when some footer lists it: deletes
      recorded in sealed files are not replayed. */
  lemma {:induction false} SealedDomain(dir: Dir, n: nat, k: Bytes)
    requires AllSealed(dir)
    ensures k in Reopen(dir, n).entries <==> ListedBelow(dir, n, k)
  {
    hide Lists, ApplyFooter;
    if n > 0 {
      SealedDomain(dir, n - 1, k);
      assert ListedBelow(dir, n, k) <==> ListedBelow(dir, n - 1, k) || (n - 1 in dir && Lists(dir[n - 1].footer.value, k));
      if n - 1 in dir {
        FooterDomain(Reopen(dir, n - 1), n - 1, dir[n - 1].footer.value, k);
      }
      assert Get(Reopen(dir, n).entries, k).Some? <==> Get(Reopen(dir, n - 1).entries, k).Some? || (n - 1 in dir && Lists(dir[n - 1].footer.value, k));
    }
  }

  /** So a clean shutdown recovers exactly the live keys if and only if no footer still on
      disk lists a deleted one. */
  lemma CleanShutdownExact(dir: Dir, idx: Index, n: nat)
    requires AllSealed(dir) && ServesAll(dir, idx) && forall id :: id in dir ==> id < n
    ensures Reopen(dir, n).entries == idx.entries
            <==> forall k :: ListedBelow(dir, n, k) ==> k in idx.entries
  {
    hide ListedBelow, Reopen, ServesAll;
    ReopenLatest(dir, idx, n);
    forall k ensures k in Reopen(dir, n).entries <==> ListedBelow(dir, n, k) {
      SealedDomain(dir, n, k);
    }
  }

  /** Every mention of `k` in the footer carries this expiry. */
  predicate ExpiresAt(es: seq<FooterEntry>, k: Bytes, at: Option<U64>) {
    forall i :: 0 <= i < |es| && es[i].key == k ==> es[i].expires == at
  }

  lemma {:induction false} FooterExpiry(idx: Index, id: nat, es: seq<FooterEntry>, k: Bytes, at: Option<U64>)
    requires ExpiresAt(es, k, at)
    ensures ApplyFooter(idx, id, es).At(k).ttl == if Lists(es, k) then at else idx.At(k).ttl
    decreases |es|
  {
    if es != [] {
      var x := es[0];
      ListsCons(es, k);
      FooterExpiry(idx.Insert(x.key, IndexEntry(id, x.offset, x.size, x.tstamp), x.expires).SetBlob(x.key, x.hash), id, es[1..], k, at);
    }
  }

  /** After a clean shutdown the expiry of a live key is the one its own footer recorded. */
  lemma {:induction false} SealedExpiry(dir: Dir, k: Bytes, e: IndexEntry, at: Option<U64>, n: nat)
    requires AllSealed(dir) && Serves(dir, k, e) && ExpiresAt(dir[e.fileId].footer.value, k, at) && n > e.fileId
    ensures Reopen(dir, n).At(k).ttl == at
  {
    hide Lists, ExpiresAt, Consistent, ApplyFooter, Holds;
    if n - 1 == e.fileId {
      FooterExpiry(Reopen(dir, n - 1), n - 1, dir[n - 1].footer.value, k, at);
    } else {
      SealedExpiry(dir, k, e, at, n - 1);
      if n - 1 in dir {
        Unlisted(dir[n - 1].footer.value, k, Reopen(dir, n - 1).At(k).ttl);
        FooterExpiry(Reopen(dir, n - 1), n - 1, dir[n - 1].footer.value, k, Reopen(dir, n - 1).At(k).ttl);
      }
    }
  }

  lemma Unlisted(es: seq<FooterEntry>, k: Bytes, at: Option<U64>)
    ensures !Lists(es, k) ==> ExpiresAt(es, k, at)
  {
  }
}
