/** How a batch of puts is laid out in one write. */
module Batch {
  import opened Types
  import opened Records

  /** One pair of a batch: the stored bytes are the value, or its hash when separated. */
  datatype Entry = Entry(key: Bytes, stored: Bytes, separated: bool, tstamp: U64)
  {
    function Flags(): Byte { NO_EXPIRY + if separated then VALUE_SEP else 0 }

    function ToRecord(): Record { Record(tstamp, Flags(), 0, key, stored, []) }
  }

  function RecordsOf(es: seq<Entry>): (rs: seq<Record>)
    ensures |rs| == |es| && forall i :: 0 <= i < |es| ==> rs[i] == es[i].ToRecord()
  {
    seq(|es|, i requires 0 <= i < |es| => es[i].ToRecord())
  }

  /** Start in the buffer, size and revision of a record. */
  datatype Place = Place(start: nat, size: nat, tstamp: U64)

  /** The place holds, in any file the buffer was appended to, exactly the pair's own record. */
  ghost predicate Decodes(crc: Crc, buf: Bytes, p: Place, r: Record) {
    && p.start + p.size <= |buf| && p.tstamp == r.tstamp
    && ReadRecord(crc, buf[p.start..p.start + p.size]) == Some(r)
    && ReadRecord(crc, buf[p.start..]) == Some(r)
  }

  /** The buffer of `put_many` and the layout it keeps for the index. */
  method Lay(crc: Crc, es: seq<Entry>) returns (r: Option<(Bytes, seq<Place>)>)
    ensures r.Some? <==> AllFit(RecordsOf(es))
    ensures r.Some? ==>
              && r.value.0 == EncodeAll(crc, RecordsOf(es)) && |r.value.1| == |es|
              && forall i :: 0 <= i < |es| ==> r.value.1[i] == Place(TotalSize(RecordsOf(es)[..i]), es[i].ToRecord().Size(), es[i].tstamp)
  {
    hide Encode;
    ghost var rs := RecordsOf(es);
    var buf, layout := [], [];
    for i := 0 to |es|
      invariant AllFit(rs[..i]) && buf == EncodeAll(crc, rs[..i]) && |layout| == i
      invariant forall j :: 0 <= j < i ==> layout[j] == Place(TotalSize(rs[..j]), es[j].ToRecord().Size(), es[j].tstamp)
    {
      var e := es[i];
      var start := |buf|;
      var out := EncodeInto(crc, buf, e.tstamp, e.Flags(), 0, e.key, e.stored, []);
      if out.None? {
        return None;
      }
      assert rs[..i + 1] == rs[..i] + [rs[i]];
      EncodeAllAppend(crc, rs[..i], [rs[i]]);
      OneEncoded(crc, rs[i]);
      buf := out.value;
      layout := layout + [Place(start, |buf| - start, e.tstamp)];
    }
    assert rs[..|es|] == rs;
    return Some((buf, layout));
  }

  lemma OneEncoded(crc: Crc, r: Record)
    requires r.Fits()
    ensures AllFit([r]) && EncodeAll(crc, [r]) == Encode(crc, r)
  {
    assert [r][1..] == [];
  }

  lemma SliceDecodes(crc: Crc, bytes: Bytes, at: nat, r: Record)
    requires r.Fits() && at + r.Size() <= |bytes| && bytes[at..at + r.Size()] == Encode(crc, r)
    ensures Decodes(crc, bytes, Place(at, r.Size(), r.tstamp), r)
  {
    hide Encode, ReadRecord;
    assert Encode(crc, r) + [] == Encode(crc, r);
    ReadEncoded(crc, r, []);
    ReadEncoded(crc, r, bytes[at + r.Size()..]);
    assert bytes[at..] == bytes[at..at + r.Size()] + bytes[at + r.Size()..];
  }

  lemma FilesFit(file: seq<Record>, rs: seq<Record>)
    requires AllFit(file) && AllFit(rs)
    ensures AllFit(file + rs)
  {
  }

  lemma RecordAtAppended(file: seq<Record>, rs: seq<Record>, i: nat)
    requires i < |rs|
    ensures RecordAt(file + rs, TotalSize(file) + TotalSize(rs[..i])) == Some(rs[i])
  {
    assert (file + rs)[..|file| + i] == file + rs[..i];
    TotalSizeAppend(file, rs[..i]);
    RecordAtStart(file + rs, |file| + i);
  }

  /** Each recorded (offset, size) of a batch decodes to its own pair, also at the end of a
      file that already holds other records. */
  lemma BatchDecodes(crc: Crc, file: seq<Record>, es: seq<Entry>, i: nat)
    requires AllFit(file) && AllFit(RecordsOf(es)) && i < |es|
    ensures AllFit(file + RecordsOf(es))
    ensures Decodes(crc, EncodeAll(crc, file + RecordsOf(es)),
                    Place(TotalSize(file) + TotalSize(RecordsOf(es)[..i]), es[i].ToRecord().Size(), es[i].tstamp), es[i].ToRecord())
  {
    hide Encode, ReadRecord, EncodeAll, TotalSize, RecordAt, AllFit, Decodes;
    FilesFit(file, RecordsOf(es));
    RecordAtAppended(file, RecordsOf(es), i);
    var at := TotalSize(file) + TotalSize(RecordsOf(es)[..i]);
    RecordBytes(crc, file + RecordsOf(es), at);
    SliceDecodes(crc, EncodeAll(crc, file + RecordsOf(es)), at, es[i].ToRecord());
  }
}
