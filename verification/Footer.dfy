/** Sealed-file footers: one entry per live key, then a 24-byte trailer. */
module Footer {
  import opened Types
  import opened Records

  const FOOTER_MAGIC: U64 := 0x4259_4F4E_445F_4B58
  const FOOTER_TRAILER_LEN: nat := 24

  datatype FooterEntry = FooterEntry(
    key: Bytes, offset: nat, size: nat, expires: Option<U64>, tstamp: U64, hash: Option<Hash>)

  /** The widths of the wire format. */
  predicate EntryFits(e: FooterEntry) {
    |e.key| <= U32_MAX && e.size <= U32_MAX && e.offset < 0x1_0000_0000_0000_0000
  }

  predicate EntriesFit(es: seq<FooterEntry>) {
    forall i :: 0 <= i < |es| ==> EntryFits(es[i])
  }

  /** The 33 bytes in front of the value-separation marker. */
  function EntryPrefix(e: FooterEntry): (b: Bytes)
    requires EntryFits(e)
    ensures |b| == 33
  {
    LE4(|e.key|) + LE8(e.offset) + LE4(e.size) +
    LE8(if e.expires.Some? then e.expires.value else 0) +
    [if e.expires.Some? then 1 else 0] + LE8(e.tstamp)
  }

  function HashField(h: Option<Hash>): Bytes {
    match h
    case Some(x) => [1] + x
    case None => [0]
  }

  function EncodedSize(e: FooterEntry): nat {
    4 + 8 + 4 + 8 + 1 + 8 + 1 + (if e.hash.Some? then 16 else 0) + |e.key|
  }

  function EncodeEntry(e: FooterEntry): (b: Bytes)
    requires EntryFits(e)
    ensures |b| == EncodedSize(e)
  {
    EntryPrefix(e) + HashField(e.hash) + e.key
  }

  function ParseEntry(buf: Bytes): (r: Option<(FooterEntry, nat)>)
    ensures r.Some? ==> 34 <= r.value.1 <= |buf|
  {
    if |buf| < 34 then None
    else
      var keySize := U32At(buf, 0);
      var expires := if buf[24] != 0 then Some(U64At(buf, 16)) else None;
      if buf[33] != 0 && |buf| < 50 then None
      else
        var hash: Option<Hash> := if buf[33] != 0 then Some(buf[34..50]) else None;
        var cursor := if buf[33] != 0 then 50 else 34;
        if |buf| < cursor + keySize then None
        else Some((FooterEntry(buf[cursor..cursor + keySize], U64At(buf, 4), U32At(buf, 12),
                               expires, U64At(buf, 25), hash), cursor + keySize))
  }

  lemma ParsePrefix(e: FooterEntry, rest: Bytes)
    requires EntryFits(e)
    ensures var buf := EntryPrefix(e) + rest;
            && U32At(buf, 0) == |e.key| && U64At(buf, 4) == e.offset && U32At(buf, 12) == e.size
            && U64At(buf, 25) == e.tstamp
            && buf[24] == (if e.expires.Some? then 1 else 0)
            && (e.expires.Some? ==> U64At(buf, 16) == e.expires.value)
  {
    hide LE4, LE8, FromLE;
    var buf := EntryPrefix(e) + rest;
    assert buf[0..4] == LE4(|e.key|);
    assert buf[4..12] == LE8(e.offset);
    assert buf[12..16] == LE4(e.size);
    assert buf[16..24] == LE8(if e.expires.Some? then e.expires.value else 0);
    assert buf[25..33] == LE8(e.tstamp);
    U32RoundTrip(|e.key|);
    U64RoundTrip(e.offset);
    U32RoundTrip(e.size);
    U64RoundTrip(e.tstamp);
    if e.expires.Some? {
      U64RoundTrip(e.expires.value);
    }
  }

  /** Where each field of a footer entry is. */
  lemma EntryLayout(e: FooterEntry)
    requires EntryFits(e)
    ensures var b := EncodeEntry(e);
            && U32At(b, 0) == |e.key| && U64At(b, 4) == e.offset && U32At(b, 12) == e.size
            && (e.expires.Some? ==> b[24] == 1 && U64At(b, 16) == e.expires.value) && (e.expires.None? ==> b[24] == 0)
            && U64At(b, 25) == e.tstamp
            && (if e.hash.Some? then b[33] == 1 && b[34..50] == e.hash.value && b[50..] == e.key else b[33] == 0 && b[34..] == e.key)
  {
    hide EntryPrefix, U32At, U64At;
    ParsePrefix(e, HashField(e.hash) + e.key);
    assert EncodeEntry(e) == EntryPrefix(e) + (HashField(e.hash) + e.key);
  }

  lemma ParseEncodedEntry(e: FooterEntry, rest: Bytes)
    requires EntryFits(e)
    ensures ParseEntry(EncodeEntry(e) + rest) == Some((e, EncodedSize(e)))
  {
    hide EntryPrefix, U32At, U64At;
    var buf := EncodeEntry(e) + rest;
    assert buf == EntryPrefix(e) + (HashField(e.hash) + e.key + rest);
    ParsePrefix(e, HashField(e.hash) + e.key + rest);
    if e.hash.Some? {
      assert buf[34..50] == e.hash.value;
      assert buf[50..50 + |e.key|] == e.key;
    } else {
      assert buf[34..34 + |e.key|] == e.key;
    }
  }

  function EncodeEntries(es: seq<FooterEntry>): Bytes
    requires EntriesFit(es)
  {
    if es == [] then [] else EncodeEntry(es[0]) + EncodeEntries(es[1..])
  }

  /** Every entry of a footer body, or nothing if some entry is malformed. */
  function ParseEntries(body: Bytes): Option<seq<FooterEntry>>
    decreases |body|
  {
    if body == [] then Some([])
    else match ParseEntry(body)
      case None => None
      case Some((e, used)) =>
        match ParseEntries(body[used..])
        case None => None
        case Some(es) => Some([e] + es)
  }

  lemma {:induction false} ParseEncodedEntries(es: seq<FooterEntry>)
    requires EntriesFit(es)
    ensures ParseEntries(EncodeEntries(es)) == Some(es)
  {
    hide EncodeEntry, ParseEntry;
    if es != [] {
      var rest := EncodeEntries(es[1..]);
      ParseEncodedEntry(es[0], rest);
      assert (EncodeEntry(es[0]) + rest)[EncodedSize(es[0])..] == rest;
      ParseEncodedEntries(es[1..]);
      assert |EncodeEntries(es)| > 0;
      assert es == [es[0]] + es[1..];
    }
  }

  function Trailer(crc: Crc, body: Bytes): (b: Bytes)
    ensures |b| == FOOTER_TRAILER_LEN
  {
    LE8(|body|) + LE8(crc(body)) + LE8(FOOTER_MAGIC)
  }

  /** A sealed file: its records, the footer body, the trailer. */
  function Seal(crc: Crc, data: Bytes, es: seq<FooterEntry>): Bytes
    requires EntriesFit(es)
  {
    data + EncodeEntries(es) + Trailer(crc, EncodeEntries(es))
  }

  /** The source's `write_footer`: two appends after whatever the file holds. */
  method WriteFooter(crc: Crc, file: Bytes, entries: seq<FooterEntry>) returns (sealed: Bytes)
    requires EntriesFit(entries)
    ensures sealed == Seal(crc, file, entries)
  {
    hide EncodeEntry, LE8;
    var body: Bytes := [];
    var i := 0;
    while i < |entries|
      invariant 0 <= i <= |entries|
      invariant body + EncodeEntries(entries[i..]) == EncodeEntries(entries)
    {
      assert entries[i..][1..] == entries[i + 1..];
      body := body + EncodeEntry(entries[i]);
      i := i + 1;
    }
    assert body == body + EncodeEntries([]) == EncodeEntries(entries);
    sealed := file + body;
    sealed := sealed + (LE8(|body|) + LE8(crc(body)) + LE8(FOOTER_MAGIC));
  }

  /** No trailer, a trailer whose length, checksum or entries are wrong, or the entries. */
  datatype FooterRead = Absent | Corrupt | Entries(entries: seq<FooterEntry>)

  function FooterOf(crc: Crc, file: Bytes): FooterRead {
    if |file| < FOOTER_TRAILER_LEN then Absent
    else
      var at := |file| - FOOTER_TRAILER_LEN;
      var bodyLen := U64At(file, at);
      if U64At(file, at + 16) != FOOTER_MAGIC then Absent
      else if bodyLen > at then Corrupt
      else
        var body := file[at - bodyLen..at];
        if crc(body) != U64At(file, at + 8) then Corrupt
        else match ParseEntries(body)
          case None => Corrupt
          case Some(es) => Entries(es)
  }

  /** The file ends with this footer body and its trailer. */
  ghost predicate EndsWith(crc: Crc, file: Bytes, body: Bytes) {
    && |body| < 0x1_0000_0000_0000_0000 && |body| + FOOTER_TRAILER_LEN <= |file|
    && file[|file| - FOOTER_TRAILER_LEN - |body|..] == body + Trailer(crc, body)
  }

  /** Bytes are read as a footer body if and only if they stand before a trailer with their
      length, their checksum and the magic number. */
  lemma BodyExact(crc: Crc, file: Bytes, body: Bytes)
    requires |file| >= FOOTER_TRAILER_LEN
    ensures EndsWith(crc, file, body) <==>
              var at := |file| - FOOTER_TRAILER_LEN;
              && U64At(file, at + 16) == FOOTER_MAGIC && U64At(file, at) == |body| <= at
              && body == file[at - |body|..at] && crc(body) == U64At(file, at + 8)
  {
    hide LE8, U64At;
    var at := |file| - FOOTER_TRAILER_LEN;
    U64Field(file, at);
    U64Field(file, at + 8);
    U64Field(file, at + 16);
    if EndsWith(crc, file, body) {
      var front := file[..at];
      assert file[at - |body|..][|body|..] == file[at..];
      assert file == front + Trailer(crc, body);
      TrailerFields(crc, front, body);
    } else if |body| <= at {
      assert file[at - |body|..] == file[at - |body|..at] + (file[at..at + 8] + file[at + 8..at + 16] + file[at + 16..at + 24]);
    }
  }

  /** A footer is accepted if and only if the file ends with a body of well-formed entries and
      the trailer of that body; it is absent if and only if the magic number is not there. */
  lemma FooterExact(crc: Crc, file: Bytes, es: seq<FooterEntry>)
    ensures FooterOf(crc, file) == Entries(es) <==> exists body :: EndsWith(crc, file, body) && ParseEntries(body) == Some(es)
    ensures FooterOf(crc, file) == Absent <==> |file| < FOOTER_TRAILER_LEN || file[|file| - 8..] != LE8(FOOTER_MAGIC)
  {
    hide EndsWith, ParseEntries, U64At, LE8;
    if |file| >= FOOTER_TRAILER_LEN {
      var at := |file| - FOOTER_TRAILER_LEN;
      forall body ensures EndsWith(crc, file, body) <==>
          (U64At(file, at + 16) == FOOTER_MAGIC && U64At(file, at) == |body| <= at
           && body == file[at - |body|..at] && crc(body) == U64At(file, at + 8))
      {
        BodyExact(crc, file, body);
      }
      MagicField(file);
      var n := U64At(file, at);
      if FooterOf(crc, file) == Entries(es) {
        assert EndsWith(crc, file, file[at - n..at]);
      }
    } else {
      ShortFile(crc, file);
    }
  }

  lemma ShortFile(crc: Crc, file: Bytes)
    requires |file| < FOOTER_TRAILER_LEN
    ensures forall body :: !EndsWith(crc, file, body)
  {
  }

  lemma MagicField(file: Bytes)
    requires |file| >= 8
    ensures U64At(file, |file| - 8) == FOOTER_MAGIC <==> file[|file| - 8..] == LE8(FOOTER_MAGIC)
  {
    hide LE8;
    U64Field(file, |file| - 8);
    U64RoundTrip(FOOTER_MAGIC);
    assert file[|file| - 8..] == file[|file| - 8..|file| - 8 + 8];
  }

  /** One entry off the front of a footer body. */
  lemma ParseNext(body: Bytes, cursor: nat)
    requires cursor < |body|
    ensures var next := ParseEntry(body[cursor..]);
            if next.None? then ParseEntries(body[cursor..]).None?
            else
              && cursor + next.value.1 <= |body|
              && var rest := ParseEntries(body[cursor + next.value.1..]);
                 ParseEntries(body[cursor..]) == if rest.None? then None else Some([next.value.0] + rest.value)
  {
    hide ParseEntry;
    var next := ParseEntry(body[cursor..]);
    if next.Some? {
      assert body[cursor..][next.value.1..] == body[cursor + next.value.1..];
    }
  }

  /** The cursor loop over a footer body. */
  method ReadEntries(body: Bytes) returns (r: Option<seq<FooterEntry>>)
    ensures r == ParseEntries(body)
  {
    hide ParseEntry, ParseEntries;
    var entries := [];
    var cursor := 0;
    assert body[0..] == body;
    JoinEntries(entries);
    while cursor < |body|
      invariant 0 <= cursor <= |body|
      invariant var rest := ParseEntries(body[cursor..]);
                ParseEntries(body) == if rest.None? then None else Some(entries + rest.value)
    {
      ParseNext(body, cursor);
      var next := ParseEntry(body[cursor..]);
      if next.None? {
        return None;
      }
      JoinEntries(entries);
      entries := entries + [next.value.0];
      cursor := cursor + next.value.1;
    }
    NoEntries(body[cursor..]);
    JoinEntries(entries);
    return Some(entries);
  }

  lemma JoinEntries(es: seq<FooterEntry>)
    ensures es + [] == es && (es == [] ==> forall rest: seq<FooterEntry> :: es + rest == rest)
    ensures forall e: FooterEntry, rest: seq<FooterEntry> :: es + ([e] + rest) == es + [e] + rest
  {
  }

  lemma NoEntries(body: Bytes)
    ensures body == [] ==> ParseEntries(body) == Some([])
  {
  }

  method ReadFooter(crc: Crc, file: Bytes) returns (r: FooterRead)
    ensures r == FooterOf(crc, file)
  {
    hide ParseEntries, U64At;
    var total := |file|;
    if total < FOOTER_TRAILER_LEN {
      return Absent;
    }
    var trailer := total - FOOTER_TRAILER_LEN;
    var bodyLen := U64At(file, trailer);
    var storedCrc := U64At(file, trailer + 8);
    if U64At(file, trailer + 16) != FOOTER_MAGIC {
      return Absent;
    }
    if bodyLen > trailer {
      return Corrupt;
    }
    var body := file[trailer - bodyLen..trailer];
    if crc(body) != storedCrc {
      return Corrupt;
    }
    var entries := ReadEntries(body);
    r := if entries.None? then Corrupt else Entries(entries.value);
  }

  /** Where the records of a file end: before the footer if it has one. */
  function DataEnd(file: Bytes): nat {
    if |file| < FOOTER_TRAILER_LEN then |file|
    else
      var at := |file| - FOOTER_TRAILER_LEN;
      if U64At(file, |file| - 8) != FOOTER_MAGIC then |file|
      else
        var footer := FOOTER_TRAILER_LEN + U64At(file, at);
        if footer > |file| then 0 else |file| - footer
  }

  lemma TrailerFields(crc: Crc, front: Bytes, body: Bytes)
    requires |body| < 0x1_0000_0000_0000_0000
    ensures var file := front + Trailer(crc, body);
            && U64At(file, |front|) == |body|
            && U64At(file, |front| + 8) == crc(body)
            && U64At(file, |front| + 16) == FOOTER_MAGIC
  {
    var file := front + Trailer(crc, body);
    assert file[|front|..|front| + 8] == LE8(|body|);
    assert file[|front| + 8..|front| + 16] == LE8(crc(body));
    assert file[|front| + 16..|front| + 24] == LE8(FOOTER_MAGIC);
    U64RoundTrip(|body|);
    U64RoundTrip(crc(body));
    U64RoundTrip(FOOTER_MAGIC);
  }

  /** Reading back what sealing wrote gives the same entries, and the record area
      ends exactly where the footer was appended. */
  lemma SealRoundTrip(crc: Crc, data: Bytes, es: seq<FooterEntry>)
    requires EntriesFit(es) && |EncodeEntries(es)| < 0x1_0000_0000_0000_0000
    ensures FooterOf(crc, Seal(crc, data, es)) == Entries(es)
    ensures DataEnd(Seal(crc, data, es)) == |data|
    ensures Seal(crc, data, es)[..|data|] == data
  {
    hide EncodeEntries, ParseEntries, U64At, Trailer;
    var body := EncodeEntries(es);
    var file := Seal(crc, data, es);
    TrailerFields(crc, data + body, body);
    assert file[|data|..|data| + |body|] == body;
    ParseEncodedEntries(es);
  }
}
