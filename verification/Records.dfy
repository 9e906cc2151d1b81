/** Log records on disk: a 37-byte header, then key, value and metadata. The
    checksum is any function of the bytes it covers. */
module Records {
  import opened Types

  const HEADER_LEN: nat := 37

  // Record bit flags.
  const TOMBSTONE: Byte := 1
  const NO_EXPIRY: Byte := 2
  const TTL_UPDATE: Byte := 4
  const VALUE_SEP: Byte := 8

  const U32_MAX: nat := 0xffff_ffff

  type Crc = Bytes -> U64

  /** `flags & bit != 0` for a single bit. */
  predicate Has(flags: Byte, bit: Byte)
    requires bit > 0
  {
    (flags / bit) % 2 == 1
  }

  datatype Record = Record(tstamp: U64, flags: Byte, expires: U64, key: Bytes, value: Bytes, meta: Bytes)
  {
    function Size(): nat { HEADER_LEN + |key| + |value| + |meta| }

    /** The limit `encode_into` enforces. */
    predicate Fits() { Size() <= U32_MAX }

    /** Each length has room in its header field. */
    predicate Wide() { |key| <= U32_MAX && |value| <= U32_MAX && |meta| <= U32_MAX }

    predicate IsTombstone() { Has(flags, TOMBSTONE) }

    predicate IsTtlUpdate() { !IsTombstone() && Has(flags, TTL_UPDATE) }

    predicate IsFull() { !IsTombstone() && !Has(flags, TTL_UPDATE) }

    function Expiry(): Option<U64> { if Has(flags, NO_EXPIRY) then None else Some(expires) }

    /** The blob hash a value-separated record carries in its value field. */
    function Blob(): Option<Hash> {
      if Has(flags, VALUE_SEP) && |value| == 16 then Some(value) else None
    }
  }

  datatype Header = Header(crc: U64, tstamp: U64, flags: Byte, expires: U64, keySize: U32, valSize: U32, metaSize: U32)
  {
    function BodyLen(): nat { keySize + valSize + metaSize }
  }

  function Body(r: Record): (b: Bytes)
    ensures |b| == r.Size() - HEADER_LEN
  {
    r.key + r.value + r.meta
  }

  /** The header without its checksum. */
  function HeaderTail(r: Record): (b: Bytes)
    requires r.Wide()
    ensures |b| == HEADER_LEN - 8
  {
    LE8(r.tstamp) + [r.flags] + LE8(r.expires) +
    LE4(|r.key|) + LE4(|r.value|) + LE4(|r.meta|)
  }

  function HeaderBytes(crc: Crc, r: Record): (b: Bytes)
    requires r.Wide()
    ensures |b| == HEADER_LEN
  {
    LE8(crc(HeaderTail(r) + Body(r))) + HeaderTail(r)
  }

  function Encode(crc: Crc, r: Record): (b: Bytes)
    requires r.Wide()
    ensures |b| == r.Size()
  {
    HeaderBytes(crc, r) + Body(r)
  }

  function HeaderOf(crc: Crc, r: Record): Header
    requires r.Wide()
  {
    Header(crc(HeaderTail(r) + Body(r)), r.tstamp, r.flags, r.expires, |r.key|, |r.value|, |r.meta|)
  }

  function U64At(buf: Bytes, at: nat): (n: U64)
    requires at + 8 <= |buf|
  {
    U64Width();
    FromLEBound(buf[at..at + 8]);
    FromLE(buf[at..at + 8])
  }

  function U32At(buf: Bytes, at: nat): (n: U32)
    requires at + 4 <= |buf|
  {
    U32Width();
    FromLEBound(buf[at..at + 4]);
    FromLE(buf[at..at + 4])
  }

  function ParseHeader(buf: Bytes): (h: Option<Header>)
    ensures h.Some? <==> |buf| >= HEADER_LEN
  {
    if |buf| < HEADER_LEN then None
    else Some(Header(U64At(buf, 0), U64At(buf, 8), buf[16], U64At(buf, 17),
                     U32At(buf, 25), U32At(buf, 29), U32At(buf, 33)))
  }

  predicate VerifyCrc(crc: Crc, h: Header, headerBytes: Bytes, body: Bytes)
    requires |headerBytes| == HEADER_LEN
  {
    crc(headerBytes[8..] + body) == h.crc
  }

  /** Where each field of a record is, and that the checksum covers everything after it. */
  lemma Layout(crc: Crc, r: Record)
    requires r.Wide()
    ensures var b := Encode(crc, r);
            && U64At(b, 0) == crc(b[8..]) && U64At(b, 8) == r.tstamp && b[16] == r.flags && U64At(b, 17) == r.expires
            && U32At(b, 25) == |r.key| && U32At(b, 29) == |r.value| && U32At(b, 33) == |r.meta|
            && b[37..] == r.key + r.value + r.meta
  {
    hide LE4, LE8, FromLE;
    var b := Encode(crc, r);
    U64RoundTrip(crc(HeaderTail(r) + Body(r)));
    U64RoundTrip(r.tstamp);
    U64RoundTrip(r.expires);
    U32RoundTrip(|r.key|);
    U32RoundTrip(|r.value|);
    U32RoundTrip(|r.meta|);
    assert b[8..] == HeaderTail(r) + Body(r);
    assert b[0..8] == LE8(crc(HeaderTail(r) + Body(r))) && b[8..16] == LE8(r.tstamp) && b[17..25] == LE8(r.expires);
    assert b[25..29] == LE4(|r.key|) && b[29..33] == LE4(|r.value|) && b[33..37] == LE4(|r.meta|);
  }

  /** What the low four bits of the flags mean. */
  lemma FlagBits(r: Record)
    ensures r.IsTombstone() <==> r.flags % 2 == 1
    ensures r.Expiry().None? <==> r.flags / 2 % 2 == 1
    ensures r.IsTtlUpdate() <==> r.flags % 2 == 0 && r.flags / 4 % 2 == 1
    ensures r.Blob().Some? <==> r.flags / 8 % 2 == 1 && |r.value| == 16
  {
  }

  lemma ParseHeaderBytes(crc: Crc, r: Record)
    requires r.Wide()
    ensures ParseHeader(HeaderBytes(crc, r)) == Some(HeaderOf(crc, r))
    ensures VerifyCrc(crc, HeaderOf(crc, r), HeaderBytes(crc, r), Body(r))
  {
    var h := HeaderBytes(crc, r);
    var c := LE8(crc(HeaderTail(r) + Body(r)));
    assert h[8..] == HeaderTail(r);
    assert h[0..8] == c;
    assert h[8..16] == LE8(r.tstamp);
    assert h[17..25] == LE8(r.expires);
    assert h[25..29] == LE4(|r.key|);
    assert h[29..33] == LE4(|r.value|);
    assert h[33..37] == LE4(|r.meta|);
    U64RoundTrip(crc(HeaderTail(r) + Body(r)));
    U64RoundTrip(r.tstamp);
    U64RoundTrip(r.expires);
    U32RoundTrip(|r.key|);
    U32RoundTrip(|r.value|);
    U32RoundTrip(|r.meta|);
  }

  /** Overwrite `|x|` bytes of `buf` at `at`. */
  function Patch(buf: Bytes, at: nat, x: Bytes): (b: Bytes)
    requires at + |x| <= |buf|
    ensures |b| == |buf|
  {
    buf[..at] + x + buf[at + |x|..]
  }

  lemma PatchMiddle(pre: Bytes, mid: Bytes, post: Bytes, x: Bytes)
    requires |mid| == |x|
    ensures Patch(pre + mid + post, |pre|, x) == pre + x + post
  {
    assert (pre + mid + post)[..|pre|] == pre;
    assert (pre + mid + post)[|pre| + |x|..] == post;
  }

  /** Patches the first bytes of a zeroed region, leaving the rest zeroed. */
  lemma PatchZeros(pre: Bytes, zeros: nat, x: Bytes)
    requires |x| <= zeros
    ensures Patch(pre + Zeros(zeros), |pre|, x) == (pre + x) + Zeros(zeros - |x|)
  {
    assert pre + Zeros(zeros) == pre + Zeros(|x|) + Zeros(zeros - |x|);
    PatchMiddle(pre, Zeros(|x|), Zeros(zeros - |x|), x);
  }

  /** Appends one record to `buf`: zero the header, patch its fields, append the
      body, then patch the checksum over everything after it. */
  method EncodeInto(crc: Crc, buf: Bytes, tstamp: U64, flags: Byte, expires: U64, key: Bytes, value: Bytes, meta: Bytes)
    returns (out: Option<Bytes>)
    ensures out.Some? <==> Record(tstamp, flags, expires, key, value, meta).Fits()
    ensures out.Some? ==> out.value == buf + Encode(crc, Record(tstamp, flags, expires, key, value, meta))
  {
    hide LE4, LE8, Patch, Zeros;
    if HEADER_LEN + |key| + |value| + |meta| > U32_MAX {
      return None;
    }
    ghost var r := Record(tstamp, flags, expires, key, value, meta);
    var start := |buf|;
    var b := buf + Zeros(HEADER_LEN);
    ghost var pre := buf + Zeros(8);
    assert b == pre + Zeros(29);
    PatchZeros(pre, 29, LE8(tstamp));
    b, pre := Patch(b, start + 8, LE8(tstamp)), pre + LE8(tstamp);
    PatchZeros(pre, 21, [flags]);
    b, pre := Patch(b, start + 16, [flags]), pre + [flags];
    PatchZeros(pre, 20, LE8(expires));
    b, pre := Patch(b, start + 17, LE8(expires)), pre + LE8(expires);
    PatchZeros(pre, 12, LE4(|key|));
    b, pre := Patch(b, start + 25, LE4(|key|)), pre + LE4(|key|);
    PatchZeros(pre, 8, LE4(|value|));
    b, pre := Patch(b, start + 29, LE4(|value|)), pre + LE4(|value|);
    PatchZeros(pre, 4, LE4(|meta|));
    b, pre := Patch(b, start + 33, LE4(|meta|)), pre + LE4(|meta|);
    assert pre == buf + Zeros(8) + HeaderTail(r);
    b := b + key + value + meta;
    assert b == buf + Zeros(8) + (HeaderTail(r) + Body(r));
    assert b[start + 8..] == HeaderTail(r) + Body(r);
    var c := crc(b[start + 8..]);
    PatchMiddle(buf, Zeros(8), HeaderTail(r) + Body(r), LE8(c));
    b := Patch(b, start, LE8(c));
    out := Some(b);
  }

  /** What one iteration of a replay loop reads at the start of `d`: nothing when
      the header or the body is cut short or the checksum does not match. */
  function ReadRecord(crc: Crc, d: Bytes): (r: Option<Record>)
    ensures r.Some? ==> HEADER_LEN <= r.value.Size() <= |d|
  {
    if |d| < HEADER_LEN then None
    else
      var h := ParseHeader(d[..HEADER_LEN]).value;
      if |d| - HEADER_LEN < h.BodyLen() then None
      else
        var body := d[HEADER_LEN..HEADER_LEN + h.BodyLen()];
        if !VerifyCrc(crc, h, d[..HEADER_LEN], body) then None
        else Some(Record(h.tstamp, h.flags, h.expires, body[..h.keySize],
                         body[h.keySize..h.keySize + h.valSize], body[h.keySize + h.valSize..]))
  }

  lemma ReadEncoded(crc: Crc, r: Record, rest: Bytes)
    requires r.Wide()
    ensures ReadRecord(crc, Encode(crc, r) + rest) == Some(r)
  {
    var d := Encode(crc, r) + rest;
    ParseHeaderBytes(crc, r);
    assert d[..HEADER_LEN] == HeaderBytes(crc, r);
    assert d[HEADER_LEN..r.Size()] == Body(r);
    assert Body(r)[..|r.key|] == r.key;
    assert Body(r)[|r.key|..|r.key| + |r.value|] == r.value;
    assert Body(r)[|r.key| + |r.value|..] == r.meta;
  }

  lemma ReadCut(crc: Crc, r: Record, rest: Bytes, t: nat)
    requires r.Fits() && t < r.Size()
    ensures ReadRecord(crc, (Encode(crc, r) + rest)[..t]) == None
  {
    var d := (Encode(crc, r) + rest)[..t];
    if t >= HEADER_LEN {
      ParseHeaderBytes(crc, r);
      assert d[..HEADER_LEN] == HeaderBytes(crc, r);
    }
  }

  lemma U64Field(buf: Bytes, at: nat)
    requires at + 8 <= |buf|
    ensures LE8(U64At(buf, at)) == buf[at..at + 8]
  {
    hide ToLE, FromLE;
    ToFromLE(buf[at..at + 8], Zeros(8));
  }

  lemma U32Field(buf: Bytes, at: nat)
    requires at + 4 <= |buf|
    ensures LE4(U32At(buf, at)) == buf[at..at + 4]
  {
    hide ToLE, FromLE;
    ToFromLE(buf[at..at + 4], Zeros(4));
  }

  /** A header is the encoding of the fields parsed from it. */
  lemma HeaderParsed(buf: Bytes)
    requires |buf| == HEADER_LEN
    ensures var h := ParseHeader(buf).value;
            buf == LE8(h.crc) + LE8(h.tstamp) + [h.flags] + LE8(h.expires) + LE4(h.keySize) + LE4(h.valSize) + LE4(h.metaSize)
  {
    hide LE4, LE8, U64At, U32At;
    U64Field(buf, 0);
    U64Field(buf, 8);
    U64Field(buf, 17);
    U32Field(buf, 25);
    U32Field(buf, 29);
    U32Field(buf, 33);
  }

  /** What is read was encoded. */
  lemma ReadIsEncoded(crc: Crc, d: Bytes)
    requires ReadRecord(crc, d).Some?
    ensures var r := ReadRecord(crc, d).value; r.Wide() && Encode(crc, r) <= d
  {
    hide LE4, LE8, U64At, U32At;
    var r, h := ReadRecord(crc, d).value, ParseHeader(d[..HEADER_LEN]).value;
    var body := d[HEADER_LEN..HEADER_LEN + h.BodyLen()];
    HeaderParsed(d[..HEADER_LEN]);
    assert d[..HEADER_LEN] == LE8(h.crc) + HeaderTail(r);
    assert d[..HEADER_LEN][8..] == HeaderTail(r);
    assert body == Body(r);
    assert d[..HEADER_LEN + h.BodyLen()] == d[..HEADER_LEN] + body;
  }

  /** The bytes of a file are read as a record if and only if they start with its encoding,
      checksum included. */
  lemma ReadExact(crc: Crc, d: Bytes, r: Record)
    ensures ReadRecord(crc, d) == Some(r) <==> r.Wide() && Encode(crc, r) <= d
  {
    hide ReadRecord, Encode;
    if r.Wide() && Encode(crc, r) <= d {
      ReadEncoded(crc, r, d[r.Size()..]);
      assert d == Encode(crc, r) + d[r.Size()..];
    }
    if ReadRecord(crc, d) == Some(r) {
      ReadIsEncoded(crc, d);
    }
  }

  /** A record whose body was torn is not read, unless the torn bytes have its checksum. */
  lemma ReadTorn(crc: Crc, r: Record, body: Bytes, rest: Bytes)
    requires r.Wide() && |body| == |Body(r)|
    ensures ReadRecord(crc, HeaderBytes(crc, r) + body + rest).Some?
            <==> crc(HeaderTail(r) + body) == crc(HeaderTail(r) + Body(r))
  {
    var d := HeaderBytes(crc, r) + body + rest;
    ParseHeaderBytes(crc, r);
    assert d[..HEADER_LEN] == HeaderBytes(crc, r);
    assert d[HEADER_LEN..r.Size()] == body;
    assert HeaderBytes(crc, r)[8..] == HeaderTail(r);
  }

  predicate AllFit(rs: seq<Record>) {
    forall i :: 0 <= i < |rs| ==> rs[i].Fits()
  }

  function EncodeAll(crc: Crc, rs: seq<Record>): (b: Bytes)
    requires AllFit(rs)
    ensures |b| == TotalSize(rs)
  {
    if rs == [] then [] else Encode(crc, rs[0]) + EncodeAll(crc, rs[1..])
  }

  function TotalSize(rs: seq<Record>): nat {
    if rs == [] then 0 else rs[0].Size() + TotalSize(rs[1..])
  }

  lemma {:induction false} TotalSizeAppend(rs: seq<Record>, ss: seq<Record>)
    ensures TotalSize(rs + ss) == TotalSize(rs) + TotalSize(ss)
  {
    if rs == [] {
      assert rs + ss == ss;
    } else {
      TotalSizeAppend(rs[1..], ss);
      assert (rs + ss)[1..] == rs[1..] + ss;
    }
  }

  lemma {:induction false} EncodeAllAppend(crc: Crc, rs: seq<Record>, ss: seq<Record>)
    requires AllFit(rs) && AllFit(ss)
    ensures AllFit(rs + ss)
    ensures EncodeAll(crc, rs + ss) == EncodeAll(crc, rs) + EncodeAll(crc, ss)
  {
    hide Encode;
    if rs == [] {
      assert rs + ss == ss;
    } else {
      EncodeAllAppend(crc, rs[1..], ss);
      assert (rs + ss)[1..] == rs[1..] + ss;
    }
  }

  /** Every record a replay loop accepts, in order. */
  function Scan(crc: Crc, d: Bytes): (rs: seq<Record>)
    ensures TotalSize(rs) <= |d|
    decreases |d|
  {
    match ReadRecord(crc, d)
    case None => []
    case Some(r) =>
      var rest := Scan(crc, d[r.Size()..]);
      assert ([r] + rest)[1..] == rest;
      [r] + rest
  }

  /** `d` starts with the encodings of `rs` and goes on with nothing that is a record. */
  ghost predicate Spells(crc: Crc, d: Bytes, rs: seq<Record>)
    decreases |rs|
  {
    if rs == [] then forall r: Record :: r.Wide() ==> !(Encode(crc, r) <= d)
    else rs[0].Wide() && Encode(crc, rs[0]) <= d && Spells(crc, d[rs[0].Size()..], rs[1..])
  }

  /** A replay loop accepts exactly those. */
  lemma {:induction false} ScanExact(crc: Crc, d: Bytes, rs: seq<Record>)
    ensures Scan(crc, d) == rs <==> Spells(crc, d, rs)
    decreases |d|
  {
    hide ReadRecord, Encode;
    forall r: Record ensures ReadRecord(crc, d) == Some(r) <==> r.Wide() && Encode(crc, r) <= d {
      ReadExact(crc, d, r);
    }
    if ReadRecord(crc, d).Some? {
      var r := ReadRecord(crc, d).value;
      if rs != [] && rs[0] == r {
        ScanExact(crc, d[r.Size()..], rs[1..]);
        assert rs == [r] + rs[1..];
      }
    }
  }

  /** The bytes a replay loop accepts are the encoding of the records. */
  lemma {:induction false} ScanEncodes(crc: Crc, d: Bytes)
    ensures AllFit(Scan(crc, d)) ==> EncodeAll(crc, Scan(crc, d)) == d[..TotalSize(Scan(crc, d))]
    decreases |d|
  {
    hide ReadRecord, Encode;
    var rs := Scan(crc, d);
    if AllFit(rs) && ReadRecord(crc, d).Some? {
      var r := ReadRecord(crc, d).value;
      var rest := d[r.Size()..];
      ReadIsEncoded(crc, d);
      assert rs[0] == r && rs[1..] == Scan(crc, rest);
      ScanEncodes(crc, rest);
      assert d[..TotalSize(rs)] == d[..r.Size()] + rest[..TotalSize(rs[1..])];
    }
  }

  lemma ScanStep(crc: Crc, r: Record, rest: Bytes)
    requires r.Fits()
    ensures Scan(crc, Encode(crc, r) + rest) == [r] + Scan(crc, rest)
  {
    ReadEncoded(crc, r, rest);
    assert (Encode(crc, r) + rest)[r.Size()..] == rest;
  }

  lemma TotalSizeCons(r: Record, rs: seq<Record>)
    ensures TotalSize([r] + rs) == r.Size() + TotalSize(rs)
  {
    assert ([r] + rs)[1..] == rs;
  }

  /** `kept` is the longest prefix of `rs` that ends at or before byte `t`. */
  ghost predicate LongestWithin(rs: seq<Record>, t: nat, kept: seq<Record>) {
    && kept <= rs
    && TotalSize(kept) <= t
    && (|kept| < |rs| ==> t < TotalSize(rs[..|kept| + 1]))
  }

  lemma LongestWithinCons(r: Record, rs: seq<Record>, t: nat, kept: seq<Record>)
    requires LongestWithin(rs, t, kept)
    ensures LongestWithin([r] + rs, r.Size() + t, [r] + kept)
  {
    TotalSizeCons(r, kept);
    if |kept| < |rs| {
      assert ([r] + rs)[..|kept| + 2] == [r] + rs[..|kept| + 1];
      TotalSizeCons(r, rs[..|kept| + 1]);
    }
  }

  /** Cutting an encoded log at byte `t` loses exactly the records that end after `t`. */
  lemma {:induction false} ScanTruncated(crc: Crc, rs: seq<Record>, t: nat)
    requires AllFit(rs) && t <= TotalSize(rs)
    ensures LongestWithin(rs, t, Scan(crc, EncodeAll(crc, rs)[..t]))
  {
    if rs == [] {
    } else if t < rs[0].Size() {
      ReadCut(crc, rs[0], EncodeAll(crc, rs[1..]), t);
      TotalSizeCons(rs[0], []);
      assert rs[..1] == [rs[0]] + [];
    } else {
      var u := t - rs[0].Size();
      var tail := EncodeAll(crc, rs[1..])[..u];
      assert EncodeAll(crc, rs)[..t] == Encode(crc, rs[0]) + tail;
      ScanStep(crc, rs[0], tail);
      ScanTruncated(crc, rs[1..], u);
      LongestWithinCons(rs[0], rs[1..], u, Scan(crc, tail));
      assert rs == [rs[0]] + rs[1..];
    }
  }

  /** Whatever is damaged after the records `rs`, they are all that is accepted. */
  lemma {:induction false} ScanDamaged(crc: Crc, rs: seq<Record>, rest: Bytes)
    requires AllFit(rs) && ReadRecord(crc, rest).None?
    ensures Scan(crc, EncodeAll(crc, rs) + rest) == rs
  {
    hide ReadRecord, Encode;
    if rs == [] {
      assert EncodeAll(crc, rs) + rest == rest;
    } else {
      var tail := EncodeAll(crc, rs[1..]) + rest;
      assert EncodeAll(crc, rs) + rest == Encode(crc, rs[0]) + tail;
      ScanStep(crc, rs[0], tail);
      ScanDamaged(crc, rs[1..], rest);
    }
  }

  lemma ScanAll(crc: Crc, rs: seq<Record>)
    requires AllFit(rs)
    ensures Scan(crc, EncodeAll(crc, rs)) == rs
  {
    ScanDamaged(crc, rs, []);
    assert EncodeAll(crc, rs) + [] == EncodeAll(crc, rs);
  }

  /** The record that starts at byte `offset` of an encoded log. */
  function RecordAt(rs: seq<Record>, offset: nat): (r: Option<Record>)
    decreases |rs|
  {
    if rs == [] then None
    else if offset == 0 then Some(rs[0])
    else if offset < rs[0].Size() then None
    else RecordAt(rs[1..], offset - rs[0].Size())
  }

  lemma {:induction false} RecordAtSnoc(rs: seq<Record>, r: Record, offset: nat)
    ensures RecordAt(rs + [r], offset) == if offset == TotalSize(rs) then Some(r) else RecordAt(rs, offset)
    decreases |rs|
  {
    if rs == [] {
      assert rs + [r] == [r];
    } else {
      assert (rs + [r])[1..] == rs[1..] + [r];
      if offset >= rs[0].Size() {
        RecordAtSnoc(rs[1..], r, offset - rs[0].Size());
      }
    }
  }

  lemma {:induction false} RecordAtStart(rs: seq<Record>, i: nat)
    requires i < |rs|
    ensures RecordAt(rs, TotalSize(rs[..i])) == Some(rs[i])
  {
    if i > 0 {
      RecordAtStart(rs[1..], i - 1);
      assert rs[..i][1..] == rs[1..][..i - 1];
    }
  }

  /** Reading a record's bytes at its offset gives back its encoding. */
  lemma {:induction false} RecordBytes(crc: Crc, rs: seq<Record>, offset: nat)
    requires AllFit(rs) && RecordAt(rs, offset).Some?
    ensures var r := RecordAt(rs, offset).value;
            && r.Fits() && offset + r.Size() <= TotalSize(rs)
            && EncodeAll(crc, rs)[offset..offset + r.Size()] == Encode(crc, r)
    decreases |rs|
  {
    hide Encode;
    if offset == 0 {
    } else {
      RecordBytes(crc, rs[1..], offset - rs[0].Size());
    }
  }
}
