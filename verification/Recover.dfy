/** Rebuilding the index from the records of a file. */
module Recover {
  import opened Types
  import opened Records
  import opened NamespaceIndex

  /** What replay does with one record: orphan TTL updates are ignored, and the blob
      sidecar is set for separated records but not cleared for inline ones. */
  function ApplyRecord(idx: Index, fileId: nat, offset: nat, r: Record): Index {
    if r.IsTombstone() then idx.Remove(r.key)
    else if r.IsTtlUpdate() then
      if r.key in idx.entries then idx.SetTtl(r.key, r.Expiry()) else idx
    else if !r.Fits() then idx
    else
      var inserted := idx.Insert(r.key, IndexEntry(fileId, offset, r.Size(), r.tstamp), r.Expiry());
      if r.Blob().Some? then inserted.SetBlob(r.key, r.Blob()) else inserted
  }

  /** Replay of consecutive records, the first of which starts at `offset`. */
  function Replay(idx: Index, fileId: nat, offset: nat, rs: seq<Record>): Index
    decreases |rs|
  {
    if rs == [] then idx
    else Replay(ApplyRecord(idx, fileId, offset, rs[0]), fileId, offset + rs[0].Size(), rs[1..])
  }

  /** The part of `ApplyRecord` that concerns key `k`. */
  function ApplySlot(s: Slot, k: Bytes, fileId: nat, offset: nat, r: Record): Slot {
    if r.key != k then s
    else if r.IsTombstone() then Slot(None, None, None)
    else if r.IsTtlUpdate() then (if s.entry.Some? then s.(ttl := r.Expiry()) else s)
    else if !r.Fits() then s
    else Slot(Some(IndexEntry(fileId, offset, r.Size(), r.tstamp)), r.Expiry(),
              if r.Blob().Some? then r.Blob() else s.blob)
  }

  function ReplaySlot(s: Slot, k: Bytes, fileId: nat, offset: nat, rs: seq<Record>): Slot
    decreases |rs|
  {
    if rs == [] then s
    else ReplaySlot(ApplySlot(s, k, fileId, offset, rs[0]), k, fileId, offset + rs[0].Size(), rs[1..])
  }

  lemma ApplyRecordAt(idx: Index, fileId: nat, offset: nat, r: Record, k: Bytes)
    ensures ApplyRecord(idx, fileId, offset, r).At(k) == ApplySlot(idx.At(k), k, fileId, offset, r)
  {
  }

  /** Replay is per key: what it does to `k` depends on nothing but `k`'s slot. */
  lemma {:induction false} ReplayAt(idx: Index, fileId: nat, offset: nat, rs: seq<Record>, k: Bytes)
    ensures Replay(idx, fileId, offset, rs).At(k) == ReplaySlot(idx.At(k), k, fileId, offset, rs)
    decreases |rs|
  {
    if rs != [] {
      ApplyRecordAt(idx, fileId, offset, rs[0], k);
      ReplayAt(ApplyRecord(idx, fileId, offset, rs[0]), fileId, offset + rs[0].Size(), rs[1..], k);
    }
  }

  lemma {:induction false} ReplayAppend(idx: Index, fileId: nat, offset: nat, rs: seq<Record>, ss: seq<Record>)
    ensures Replay(idx, fileId, offset, rs + ss)
            == Replay(Replay(idx, fileId, offset, rs), fileId, offset + TotalSize(rs), ss)
    decreases |rs|
  {
    hide ApplyRecord;
    if rs == [] {
      assert rs + ss == ss;
    } else {
      ReplayAppend(ApplyRecord(idx, fileId, offset, rs[0]), fileId, offset + rs[0].Size(), rs[1..], ss);
      assert (rs + ss)[1..] == rs[1..] + ss;
    }
  }

  lemma {:induction false} ReplaySlotAppend(s: Slot, k: Bytes, fileId: nat, offset: nat, rs: seq<Record>, ss: seq<Record>)
    ensures ReplaySlot(s, k, fileId, offset, rs + ss)
            == ReplaySlot(ReplaySlot(s, k, fileId, offset, rs), k, fileId, offset + TotalSize(rs), ss)
    decreases |rs|
  {
    hide ApplySlot;
    if rs == [] {
      assert rs + ss == ss;
    } else {
      ReplaySlotAppend(ApplySlot(s, k, fileId, offset, rs[0]), k, fileId, offset + rs[0].Size(), rs[1..], ss);
      assert (rs + ss)[1..] == rs[1..] + ss;
    }
  }

  method ApplyRecordTo(index: NsIndex, fileId: nat, offset: nat, r: Record)
    requires index.Valid()
    modifies index
    ensures index.Valid() && index.View() == ApplyRecord(old(index.View()), fileId, offset, r)
  {
    if r.IsTombstone() {
      var _ := index.Remove(r.key);
      return;
    }
    if r.IsTtlUpdate() {
      if r.key in index.entries {
        index.SetTtl(r.key, r.Expiry());
      }
      return;
    }
    if r.Size() > U32_MAX {
      return;
    }
    index.Insert(r.key, IndexEntry(fileId, offset, r.Size(), r.tstamp), r.Expiry());
    if Has(r.flags, VALUE_SEP) {
      if |r.value| == 16 {
        index.SetBlob(r.key, Some(r.value));
      }
    }
  }

  lemma ReplayCons(idx: Index, fileId: nat, offset: nat, r: Record, rs: seq<Record>)
    ensures Replay(idx, fileId, offset, [r] + rs)
            == Replay(ApplyRecord(idx, fileId, offset, r), fileId, offset + r.Size(), rs)
  {
    hide ApplyRecord;
    assert ([r] + rs)[1..] == rs;
  }

  lemma ScanAt(crc: Crc, file: Bytes, offset: nat)
    requires offset <= |file|
    ensures match ReadRecord(crc, file[offset..])
            case None => Scan(crc, file[offset..]) == []
            case Some(r) => offset + r.Size() <= |file| && Scan(crc, file[offset..]) == [r] + Scan(crc, file[offset + r.Size()..])
  {
    hide ReadRecord;
    match ReadRecord(crc, file[offset..])
    case None =>
    case Some(r) => assert file[offset..][r.Size()..] == file[offset + r.Size()..];
  }

  /** Replays a file from its start and cuts it after the last record that was intact. */
  method ReplayActive(crc: Crc, file: Bytes, fileId: nat, index: NsIndex) returns (truncated: Bytes)
    requires index.Valid()
    modifies index
    ensures index.Valid() && index.View() == Replay(old(index.View()), fileId, 0, Scan(crc, file))
    ensures truncated == file[..TotalSize(Scan(crc, file))]
    ensures Spells(crc, file, Scan(crc, file)) && (AllFit(Scan(crc, file)) ==> truncated == EncodeAll(crc, Scan(crc, file)))
  {
    hide ReadRecord, ApplyRecord, Scan, Replay, TotalSize, Spells, EncodeAll;
    ScanExact(crc, file, Scan(crc, file));
    ScanEncodes(crc, file);
    var total := |file|;
    var offset := 0;
    var lastGood := 0;
    assert file[0..] == file;
    while offset < total
      invariant 0 <= offset == lastGood <= total
      invariant index.Valid()
      invariant TotalSize(Scan(crc, file)) == offset + TotalSize(Scan(crc, file[offset..]))
      invariant Replay(index.View(), fileId, offset, Scan(crc, file[offset..]))
                == Replay(old(index.View()), fileId, 0, Scan(crc, file))
    {
      ScanAt(crc, file, offset);
      match ReadRecord(crc, file[offset..]) {
        case None => break;
        case Some(r) =>
          TotalSizeCons(r, Scan(crc, file[offset + r.Size()..]));
          ReplayCons(index.View(), fileId, offset, r, Scan(crc, file[offset + r.Size()..]));
          ApplyRecordTo(index, fileId, offset, r);
          offset := offset + r.Size();
          lastGood := offset;
      }
    }
    ScanEnd(crc, file, offset, index.View(), fileId);
    truncated := file;
    if lastGood < total {
      truncated := file[..lastGood];
    }
  }

  lemma ScanEnd(crc: Crc, file: Bytes, offset: nat, idx: Index, fileId: nat)
    requires offset <= |file| && (offset < |file| ==> ReadRecord(crc, file[offset..]).None?)
    ensures TotalSize(Scan(crc, file[offset..])) == 0
    ensures Replay(idx, fileId, offset, Scan(crc, file[offset..])) == idx
  {
  }

  /** Power loss that leaves the first `t` bytes of a log: what `ReplayActive` applies is
      exactly the records that end at or before `t`, and what it keeps is their bytes. */
  lemma ReplayTruncated(crc: Crc, rs: seq<Record>, t: nat)
    requires AllFit(rs) && t <= TotalSize(rs)
    ensures var file := EncodeAll(crc, rs)[..t];
            var kept := Scan(crc, file);
            && LongestWithin(rs, t, kept)
            && kept == rs[..|kept|]
            && file[..TotalSize(kept)] == EncodeAll(crc, kept)
  {
    hide Encode, EncodeAll, Scan, TotalSize;
    ScanTruncated(crc, rs, t);
    var kept := Scan(crc, EncodeAll(crc, rs)[..t]);
    assert rs == kept + rs[|kept|..];
    EncodeAllAppend(crc, kept, rs[|kept|..]);
  }
}
