/** The state of a namespace of many segments: what every write, seal and merge keeps, and
    what a crash during any step of the disk can leave. */
module SegmentState {
  import opened Types
  import opened Records
  import opened Footer
  import opened NamespaceIndex
  import opened Segments
  import opened Merge

  /** Visible files are whole; the sealed ones are open and carry a footer. */
  ghost predicate Files(dir: Dir, sealed: map<nat, SegFile>, top: nat) {
    && (forall id :: id in dir ==> id <= top && AllFit(dir[id].recs))
    && (forall id :: id in sealed ==> id in dir && sealed[id] == dir[id] && sealed[id].footer.Some?)
  }

  /** The version of each live key has been copied once per level its file has climbed. */
  ghost predicate Rewritten(idx: Index, level: map<nat, nat>, rewrites: map<Bytes, nat>) {
    && rewrites.Keys == idx.entries.Keys
    && forall k :: k in idx.entries ==> rewrites[k] == LevelOf(level, idx.entries[k].fileId)
  }

  ghost predicate PointsInto(idx: Index, ids: set<nat>) {
    forall k :: k in idx.entries ==> idx.entries[k].fileId in ids
  }

  /** Each sealed file's footer gives its live keys the expiry in `recorded`. */
  ghost predicate Remembers(dir: Dir, ids: set<nat>, idx: Index, recorded: map<Bytes, Option<U64>>) {
    forall k :: k in idx.entries && idx.entries[k].fileId in ids ==> RemembersKey(dir, k, idx.entries[k], recorded)
  }

  ghost predicate RemembersKey(dir: Dir, k: Bytes, e: IndexEntry, recorded: map<Bytes, Option<U64>>) {
    && k in recorded && e.fileId in dir && dir[e.fileId].footer.Some?
    && ExpiresAt(dir[e.fileId].footer.value, k, recorded[k])
  }

  /** The expiries the live keys of the files `ids` have now go into a footer. */
  ghost function Noted(recorded: map<Bytes, Option<U64>>, idx: Index, ids: set<nat>): map<Bytes, Option<U64>> {
    recorded + map k | k in idx.entries && idx.entries[k].fileId in ids :: idx.At(k).ttl
  }

  /** Same keys, revisions, sizes, expiries and blobs. */
  ghost predicate SameButPlaces(idx: Index, idx': Index) {
    && idx.entries.Keys == idx'.entries.Keys && idx.ttl == idx'.ttl && idx.blobs == idx'.blobs
    && forall k :: k in idx.entries ==> idx.entries[k].tstamp == idx'.entries[k].tstamp && idx.entries[k].size == idx'.entries[k].size
  }

  /** Reopening the directory finds every key of `latest` with that record. */
  ghost predicate Recovers(dir: Dir, latest: map<Bytes, Option<Record>>) {
    exists idx :: ServesAll(dir, idx) && Latest(dir, idx) == latest
  }

  /** Reopening finds every key of `latest` with that record, its revision and, behind a
      separated value, its blob hash; for a key in a sealed file the hash is exactly that of
      the record, so its blob is counted and nothing else is. */
  ghost predicate Restores(dir: Dir, n: nat, latest: map<Bytes, Option<Record>>) {
    forall k :: k in latest ==> RestoresKey(dir, n, k, latest[k])
  }

  ghost predicate RestoresKey(dir: Dir, n: nat, k: Bytes, r: Option<Record>) {
    && r.Some? && k in Reopen(dir, n).entries
    && var e := Reopen(dir, n).entries[k];
    && RecordOf(dir, e) == r && r.value.key == k && e.tstamp == r.value.tstamp
    && (r.value.Blob().Some? ==> Reopen(dir, n).At(k).blob == r.value.Blob())
    && (e.fileId in dir && dir[e.fileId].footer.Some? ==> Reopen(dir, n).At(k).blob == r.value.Blob())
  }

  /** What recovery from a crash image promises. */
  lemma RecoversLatest(dir: Dir, latest: map<Bytes, Option<Record>>, n: nat)
    requires Recovers(dir, latest) && forall id :: id in dir ==> id < n
    ensures Restores(dir, n, latest)
  {
    hide ServesAll, Reopen, RecordOf;
    var idx :| ServesAll(dir, idx) && Latest(dir, idx) == latest;
    ReopenLatest(dir, idx, n);
    forall k | k in latest ensures k in idx.entries { assert k in Latest(dir, idx); }
  }

  /** A directory in which each file is as it was before a step of the disk, or as it is
      after it: what a crash during the step can leave. */
  ghost predicate Mixed(d: Dir, d': Dir, image: Dir) {
    forall id :: Get(image, id) == Get(d, id) || Get(image, id) == Get(d', id)
  }

  /** What a crash can leave while the disk goes from its state `i - 1` to its state `i`. */
  ghost predicate Torn(h: seq<Dir>, i: nat, image: Dir) {
    0 < i < |h| && Mixed(h[i - 1], h[i], image)
  }

  /** The states of the disk went on from `h0` to `h`, and a crash at any point on the way
      leaves a directory that recovers `a` or recovers `b`. */
  ghost predicate SafeSince(h0: seq<Dir>, h: seq<Dir>, a: map<Bytes, Option<Record>>, b: map<Bytes, Option<Record>>) {
    && h0 <= h
    && forall i, image :: |h0| <= i < |h| && Torn(h, i, image) ==> Recovers(image, a) || Recovers(image, b)
  }

  lemma SafeNow(h: seq<Dir>, a: map<Bytes, Option<Record>>, b: map<Bytes, Option<Record>>)
    ensures SafeSince(h, h, a, b)
  {
  }

  lemma SafeGrows(h0: seq<Dir>, h: seq<Dir>, a: map<Bytes, Option<Record>>)
    requires SafeSince(h0, h, a, a)
    ensures |h0| <= |h|
  {
  }

  lemma SafeTwice(h0: seq<Dir>, h1: seq<Dir>, h2: seq<Dir>, a: map<Bytes, Option<Record>>)
    requires SafeSince(h0, h1, a, a) && SafeSince(h1, h2, a, a)
    ensures SafeSince(h0, h2, a, a)
  {
    hide Recovers, Mixed;
    forall i, image | |h0| <= i < |h2| && Torn(h2, i, image) ensures Recovers(image, a) {
      if i < |h1| {
        assert Torn(h1, i, image);
      }
    }
  }

  /** A step that writes one file leaves one directory or the other. */
  lemma OneFile(d: Dir, id: nat, f: SegFile, image: Dir)
    requires Mixed(d, d[id := f], image)
    ensures image == d || image == d[id := f]
  {
    forall j ensures j != id ==> Get(image, j) == Get(d, j) {
      assert Get(image, j) == Get(d, j) || Get(image, j) == Get(d[id := f], j);
    }
    if Get(image, id) == Get(d, id) {
      SameFiles(image, d);
    } else {
      SameFiles(image, d[id := f]);
    }
  }

  lemma SameFiles(d: Dir, d': Dir)
    requires forall id :: Get(d, id) == Get(d', id)
    ensures d == d'
  {
    forall id ensures id in d <==> id in d' { assert Get(d, id) == Get(d', id); }
    forall id | id in d ensures d[id] == d'[id] { assert Get(d, id) == Get(d', id); }
  }

  lemma SafeWrite(h: seq<Dir>, id: nat, f: SegFile, a: map<Bytes, Option<Record>>, b: map<Bytes, Option<Record>>)
    requires h != [] && Recovers(h[|h| - 1], a) && Recovers(h[|h| - 1][id := f], b)
    ensures SafeSince(h, h + [h[|h| - 1][id := f]], a, b)
  {
    hide Recovers, Mixed;
    var h' := h + [h[|h| - 1][id := f]];
    forall i, image | |h| <= i < |h'| && Torn(h', i, image) ensures Recovers(image, a) || Recovers(image, b) {
      OneFile(h[|h| - 1], id, f, image);
    }
  }

  function RunsAt(ids: set<nat>, level: map<nat, nat>, lvl: nat): set<nat> {
    set id | id in ids && LevelOf(level, id) == lvl
  }

  /** The index after a full record went to the active file. */
  function Recorded(idx: Index, e: IndexEntry, r: Record): (idx': Index)
    ensures forall k :: idx'.At(k) == if k == r.key then Slot(Some(e), r.Expiry(), r.Blob()) else idx.At(k)
    ensures idx'.entries == idx.entries[r.key := e]
  {
    idx.Insert(r.key, e, r.Expiry()).SetBlob(r.key, r.Blob())
  }

  lemma AppendServesOthers(dir: Dir, idx: Index, id: nat, r: Record)
    requires Unsealed(dir, id) && ServesAll(dir, idx) && r.Fits()
    ensures forall k :: k in idx.entries && !Decides(r, k) ==>
              && Serves(Appended(dir, id, r), k, idx.entries[k])
              && RecordOf(Appended(dir, id, r), idx.entries[k]) == RecordOf(dir, idx.entries[k])
  {
    hide Serves, Decides, Appended, RecordOf;
    forall k | k in idx.entries && !Decides(r, k)
      ensures Serves(Appended(dir, id, r), k, idx.entries[k])
      ensures RecordOf(Appended(dir, id, r), idx.entries[k]) == RecordOf(dir, idx.entries[k])
    {
      AppendServes(dir, id, r, k, idx.entries[k]);
    }
  }

  lemma PutServesAll(dir: Dir, idx: Index, id: nat, r: Record)
    requires Unsealed(dir, id) && ServesAll(dir, idx) && r.Fits() && r.IsFull()
    ensures var idx' := Recorded(idx, IndexEntry(id, TotalSize(dir[id].recs), r.Size(), r.tstamp), r);
            && ServesAll(Appended(dir, id, r), idx')
            && Latest(Appended(dir, id, r), idx') == Latest(dir, idx)[r.key := Some(r)]
  {
    hide Serves, Appended, RecordOf, Recorded, Record.IsTtlUpdate, Record.IsTombstone, ServesAll, Record.Blob, Record.Expiry;
    var e := IndexEntry(id, TotalSize(dir[id].recs), r.Size(), r.tstamp);
    var dir', idx' := Appended(dir, id, r), Recorded(idx, e, r);
    PutServes(dir, id, r);
    AppendServesOthers(dir, idx, id, r);
    assert idx'.entries == idx.entries[r.key := e];
    forall k | k in idx.entries && k != r.key
      ensures Serves(dir', k, idx.entries[k]) && Carries(dir', idx', k) && RecordOf(dir', idx.entries[k]) == RecordOf(dir, idx.entries[k])
    {
      assert !Decides(r, k) && idx'.At(k) == idx.At(k);
      ServesAt(dir, idx, k);
    }
    ServesEach(dir', idx');
  }

  lemma ServesEach(dir: Dir, idx: Index)
    requires forall k :: k in idx.entries ==> Serves(dir, k, idx.entries[k]) && Carries(dir, idx, k)
    ensures ServesAll(dir, idx)
  {
  }

  lemma PutPoints(idx: Index, ids: set<nat>, e: IndexEntry, r: Record)
    requires PointsInto(idx, ids) && e.fileId in ids
    ensures PointsInto(Recorded(idx, e, r), ids)
  {
    hide Recorded;
  }

  lemma AppendFiles(dir: Dir, sealed: map<nat, SegFile>, id: nat, r: Record)
    requires Unsealed(dir, id) && Files(dir, sealed, id) && id !in sealed && r.Fits()
    ensures Unsealed(Appended(dir, id, r), id) && Files(Appended(dir, id, r), sealed, id)
  {
  }

  lemma PutRemembers(dir: Dir, ids: set<nat>, idx: Index, recorded: map<Bytes, Option<U64>>, id: nat, e: IndexEntry, r: Record)
    requires Remembers(dir, ids, idx, recorded) && id in dir && id !in ids && e.fileId == id
    ensures Remembers(Appended(dir, id, r), ids, Recorded(idx, e, r), recorded)
  {
    hide ExpiresAt, Recorded;
  }

  lemma AppendOthers(dir: Dir, id: nat, r: Record)
    requires id in dir && OthersSealed(dir, id)
    ensures OthersSealed(Appended(dir, id, r), id)
  {
  }

  lemma PutRewritten(idx: Index, level: map<nat, nat>, rewrites: map<Bytes, nat>, e: IndexEntry, r: Record)
    requires Rewritten(idx, level, rewrites) && e.fileId !in level
    ensures Rewritten(Recorded(idx, e, r), level, rewrites[r.key := 0])
  {
    hide Recorded;
  }

  /** The fields of a segmented log as one value, with what is only counted:
      `top` the highest id in use, `origin` the level-0 runs each sealed run descends from,
      `runs` all level-0 runs so far, `rewrites` the copies made of each key's version,
      `recorded` the expiry each key had when the footer of its file was written. */
  datatype Segs = Segs(
    dir: Dir, index: Index, activeId: nat, sealed: map<nat, SegFile>, level: map<nat, nat>,
    top: nat, origin: map<nat, set<nat>>, runs: set<nat>, rewrites: map<Bytes, nat>, recorded: map<Bytes, Option<U64>>)

  predicate IsTop(ids: set<nat>, activeId: nat, top: nat) {
    activeId <= top && (top == activeId || top in ids) && forall id :: id in ids ==> id <= top
  }

  /** Holds at every step of a reclaim. */
  ghost predicate Core(fanout: nat, s: Segs) {
    && fanout >= 2 && s.top <= U32_MAX && IsTop(s.sealed.Keys, s.activeId, s.top)
    && Files(s.dir, s.sealed, s.top) && ServesAll(s.dir, s.index)
    && Tiers(fanout, s.sealed.Keys, s.level, s.origin, s.runs)
    && (forall r :: r in s.runs ==> r <= s.top)
    && Rewritten(s.index, s.level, s.rewrites)
    && Remembers(s.dir, s.sealed.Keys, s.index, s.recorded)
  }

  /** Every file other than the active one has its footer. */
  predicate OthersSealed(dir: Dir, id: nat) {
    forall j :: j in dir && j != id ==> dir[j].footer.Some?
  }

  /** Holds between operations: the active file is unsealed and the newest. */
  ghost predicate Steady(fanout: nat, s: Segs) {
    && Core(fanout, s) && s.activeId == s.top && Unsealed(s.dir, s.activeId)
    && s.activeId !in s.sealed && s.activeId !in s.runs
    && PointsInto(s.index, s.sealed.Keys + {s.activeId}) && OthersSealed(s.dir, s.activeId)
  }

  /** Holds inside a reclaim: every file has its footer and every entry is in a sealed run. */
  ghost predicate Closed(s: Segs) {
    PointsInto(s.index, s.sealed.Keys) && AllSealed(s.dir)
  }

  function AfterPut(s: Segs, r: Record): Segs
    requires s.activeId in s.dir
  {
    var e := IndexEntry(s.activeId, TotalSize(s.dir[s.activeId].recs), r.Size(), r.tstamp);
    s.(dir := Appended(s.dir, s.activeId, r), index := Recorded(s.index, e, r), rewrites := s.rewrites[r.key := 0])
  }

  lemma PutSteady(fanout: nat, s: Segs, r: Record)
    requires Steady(fanout, s) && r.Fits() && r.IsFull()
    ensures s.activeId in s.dir && Steady(fanout, AfterPut(s, r))
    ensures Latest(AfterPut(s, r).dir, AfterPut(s, r).index) == Latest(s.dir, s.index)[r.key := Some(r)]
  {
    assert s.activeId !in s.level && s.activeId in s.dir;
    hide ServesAll, Latest, Tiers, Rewritten, Recorded, PointsInto, Files, Unsealed, Appended, Record.IsFull, Record.Fits, Remembers, OthersSealed;
    var e := IndexEntry(s.activeId, TotalSize(s.dir[s.activeId].recs), r.Size(), r.tstamp);
    PutServesAll(s.dir, s.index, s.activeId, r);
    PutRewritten(s.index, s.level, s.rewrites, e, r);
    PutPoints(s.index, s.sealed.Keys + {s.activeId}, e, r);
    AppendFiles(s.dir, s.sealed, s.activeId, r);
    AppendOthers(s.dir, s.activeId, r);
    PutRemembers(s.dir, s.sealed.Keys, s.index, s.recorded, s.activeId, e, r);
  }

  function AfterDelete(s: Segs, r: Record): Segs
    requires s.activeId in s.dir
  {
    s.(dir := Appended(s.dir, s.activeId, r), index := s.index.Remove(r.key), rewrites := s.rewrites - {r.key})
  }

  lemma DeleteServesAll(dir: Dir, idx: Index, id: nat, r: Record)
    requires Unsealed(dir, id) && ServesAll(dir, idx) && r.Fits()
    ensures ServesAll(Appended(dir, id, r), idx.Remove(r.key))
    ensures Latest(Appended(dir, id, r), idx.Remove(r.key)) == Latest(dir, idx) - {r.key}
  {
    hide Serves, Appended, RecordOf, Unsealed, Record.IsTtlUpdate, Record.IsTombstone;
    AppendServesOthers(dir, idx, id, r);
    assert forall k :: Decides(r, k) ==> k == r.key;
    assert idx.Remove(r.key).entries == idx.entries - {r.key};
    hide Index.Remove;
  }

  lemma DeleteRemembers(dir: Dir, ids: set<nat>, idx: Index, recorded: map<Bytes, Option<U64>>, id: nat, r: Record)
    requires Remembers(dir, ids, idx, recorded) && id in dir && id !in ids
    ensures Remembers(Appended(dir, id, r), ids, idx.Remove(r.key), recorded)
  {
    hide ExpiresAt;
  }

  lemma DeleteRest(s: Segs, r: Record, ids: set<nat>)
    requires Rewritten(s.index, s.level, s.rewrites) && PointsInto(s.index, ids)
    ensures Rewritten(s.index.Remove(r.key), s.level, s.rewrites - {r.key}) && PointsInto(s.index.Remove(r.key), ids)
  {
  }

  lemma DeleteSteady(fanout: nat, s: Segs, r: Record)
    requires Steady(fanout, s) && r.Fits()
    ensures s.activeId in s.dir && Steady(fanout, AfterDelete(s, r))
    ensures Latest(AfterDelete(s, r).dir, AfterDelete(s, r).index) == Latest(s.dir, s.index) - {r.key}
  {
    assert s.activeId in s.dir;
    hide ServesAll, Latest, Tiers, Appended, Files, Unsealed, Rewritten, PointsInto, Index.Remove, Remembers, OthersSealed;
    DeleteServesAll(s.dir, s.index, s.activeId, r);
    DeleteRest(s, r, s.sealed.Keys + {s.activeId});
    AppendFiles(s.dir, s.sealed, s.activeId, r);
    AppendOthers(s.dir, s.activeId, r);
    DeleteRemembers(s.dir, s.sealed.Keys, s.index, s.recorded, s.activeId, r);
  }

  function AfterTtl(s: Segs, r: Record): Segs
    requires s.activeId in s.dir
  {
    s.(dir := Appended(s.dir, s.activeId, r), index := s.index.SetTtl(r.key, r.Expiry()))
  }

  lemma TtlServesAll(dir: Dir, idx: Index, id: nat, r: Record)
    requires Unsealed(dir, id) && ServesAll(dir, idx) && r.Fits() && r.IsTtlUpdate()
    ensures ServesAll(Appended(dir, id, r), idx.SetTtl(r.key, r.Expiry()))
    ensures Latest(Appended(dir, id, r), idx.SetTtl(r.key, r.Expiry())) == Latest(dir, idx)
  {
    hide Serves, Appended, RecordOf, Unsealed, Record.IsTtlUpdate;
    AppendServesOthers(dir, idx, id, r);
    assert forall k :: !Decides(r, k);
    assert idx.SetTtl(r.key, r.Expiry()).entries == idx.entries;
    hide Index.SetTtl;
  }

  lemma TtlRemembers(dir: Dir, ids: set<nat>, idx: Index, idx': Index, recorded: map<Bytes, Option<U64>>, id: nat, r: Record)
    requires Remembers(dir, ids, idx, recorded) && id in dir && id !in ids && idx'.entries == idx.entries
    ensures Remembers(Appended(dir, id, r), ids, idx', recorded)
  {
    hide ExpiresAt;
  }

  lemma TtlSteady(fanout: nat, s: Segs, r: Record)
    requires Steady(fanout, s) && r.Fits() && r.IsTtlUpdate()
    ensures s.activeId in s.dir && Steady(fanout, AfterTtl(s, r))
    ensures Latest(AfterTtl(s, r).dir, AfterTtl(s, r).index) == Latest(s.dir, s.index)
  {
    assert s.activeId in s.dir;
    hide ServesAll, Latest, Tiers, Appended, Files, Unsealed, Remembers, OthersSealed;
    TtlServesAll(s.dir, s.index, s.activeId, r);
    AppendFiles(s.dir, s.sealed, s.activeId, r);
    AppendOthers(s.dir, s.activeId, r);
    assert AfterTtl(s, r).index.entries == s.index.entries;
    TtlRemembers(s.dir, s.sealed.Keys, s.index, AfterTtl(s, r).index, s.recorded, s.activeId, r);
  }

  lemma FooterServes(dir: Dir, idx: Index, id: nat, es: seq<FooterEntry>)
    requires id in dir && FooterFor(es, idx, id) && ServesAll(dir, idx)
    ensures ServesAll(Sealed(dir, id, es), idx) && Latest(Sealed(dir, id, es), idx) == Latest(dir, idx)
  {
    hide Serves, Sealed, FooterFor, RecordOf;
    forall k | k in idx.entries
      ensures Serves(Sealed(dir, id, es), k, idx.entries[k])
      ensures RecordOf(Sealed(dir, id, es), idx.entries[k]) == RecordOf(dir, idx.entries[k])
    {
      SealServes(dir, idx, id, es, k);
    }
  }

  /** The footered active file becomes a level-0 run. */
  ghost function AfterSeal(s: Segs, es: seq<FooterEntry>): Segs
    requires s.activeId in s.dir
  {
    var dir' := Sealed(s.dir, s.activeId, es);
    s.(dir := dir', sealed := s.sealed[s.activeId := dir'[s.activeId]],
       origin := s.origin[s.activeId := {s.activeId}], runs := s.runs + {s.activeId},
       recorded := Noted(s.recorded, s.index, {s.activeId}))
  }

  lemma SealFiles(dir: Dir, sealed: map<nat, SegFile>, id: nat, top: nat, es: seq<FooterEntry>)
    requires id in dir && id !in sealed && Files(dir, sealed, top)
    ensures Files(Sealed(dir, id, es), sealed[id := Sealed(dir, id, es)[id]], top)
  {
  }

  lemma SealRemembers(dir: Dir, ids: set<nat>, idx: Index, recorded: map<Bytes, Option<U64>>, id: nat, es: seq<FooterEntry>)
    requires Remembers(dir, ids, idx, recorded) && id in dir && id !in ids && FooterFor(es, idx, id)
    ensures Remembers(Sealed(dir, id, es), ids + {id}, idx, Noted(recorded, idx, {id}))
  {
    hide Lists;
    forall k | k in idx.entries && idx.entries[k].fileId in ids + {id}
      ensures RemembersKey(Sealed(dir, id, es), k, idx.entries[k], Noted(recorded, idx, {id}))
    {
      if idx.entries[k].fileId != id {
        assert RemembersKey(dir, k, idx.entries[k], recorded);
      }
    }
  }

  lemma SealOthers(dir: Dir, id: nat, es: seq<FooterEntry>)
    requires id in dir && OthersSealed(dir, id)
    ensures AllSealed(Sealed(dir, id, es))
  {
  }

  lemma SealCore(fanout: nat, s: Segs, es: seq<FooterEntry>)
    requires Steady(fanout, s) && s.activeId in s.dir && FooterFor(es, s.index, s.activeId)
    ensures Core(fanout, AfterSeal(s, es))
    ensures Closed(AfterSeal(s, es))
    ensures Latest(AfterSeal(s, es).dir, s.index) == Latest(s.dir, s.index)
  {
    hide ServesAll, Latest, Tiers, Rewritten, Files, Unsealed, FooterFor, Sealed, PointsInto, Remembers, OthersSealed, AllSealed, Noted;
    SealRemembers(s.dir, s.sealed.Keys, s.index, s.recorded, s.activeId, es);
    SealOthers(s.dir, s.activeId, es);
    FooterServes(s.dir, s.index, s.activeId, es);
    SealTiers(fanout, s.sealed.Keys, s.level, s.origin, s.runs, s.activeId);
    SealFiles(s.dir, s.sealed, s.activeId, s.top, es);
    var s' := AfterSeal(s, es);
    assert s'.sealed.Keys == s.sealed.Keys + {s.activeId};
    assert Tiers(fanout, s'.sealed.Keys, s'.level, s'.origin, s'.runs);
  }

  /** A fresh active file above every other. */
  function AfterOpen(s: Segs): Segs {
    s.(dir := s.dir[s.top + 1 := SegFile([], None)], activeId := s.top + 1, top := s.top + 1)
  }

  lemma OpenServes(dir: Dir, idx: Index, n: nat)
    requires ServesAll(dir, idx) && n !in dir
    ensures ServesAll(dir[n := SegFile([], None)], idx)
    ensures Latest(dir[n := SegFile([], None)], idx) == Latest(dir, idx)
  {
    var dir' := dir[n := SegFile([], None)];
    assert forall k :: !Names(dir'[n], k);
    hide Serves, Names, RecordOf;
    forall k | k in idx.entries
      ensures Serves(dir', k, idx.entries[k]) && RecordOf(dir', idx.entries[k]) == RecordOf(dir, idx.entries[k])
    {
      assert idx.entries[k].fileId in dir by { ServedFile(dir, k, idx.entries[k]); }
      SwapServes(dir, dir', k, idx.entries[k]);
    }
  }

  lemma ServedFile(dir: Dir, k: Bytes, e: IndexEntry)
    requires Serves(dir, k, e)
    ensures e.fileId in dir
  {
  }

  lemma OpenRest(s: Segs)
    requires Closed(s) && Files(s.dir, s.sealed, s.top) && Remembers(s.dir, s.sealed.Keys, s.index, s.recorded)
    ensures Remembers(AfterOpen(s).dir, s.sealed.Keys, s.index, s.recorded) && OthersSealed(AfterOpen(s).dir, s.top + 1)
  {
    hide ExpiresAt;
  }

  lemma OpenSteady(fanout: nat, s: Segs)
    requires Core(fanout, s) && s.top < U32_MAX && Closed(s)
    ensures Steady(fanout, AfterOpen(s))
    ensures Latest(AfterOpen(s).dir, s.index) == Latest(s.dir, s.index)
  {
    hide ServesAll, Latest, Tiers, Rewritten, Remembers, OthersSealed, AllSealed;
    OpenRest(s);
    OpenServes(s.dir, s.index, s.top + 1);
  }

  /** A merge of the runs `ids` of level `lvl` into file `f` with the next id, taken up in
      memory; `dir` is what the unlinks left. */
  ghost function AfterMerge(s: Segs, ids: set<nat>, lvl: nat, done: set<Bytes>, f: SegFile, idx': Index, dir': Dir): Segs {
    var n := s.top + 1;
    s.(dir := dir', index := idx', sealed := (s.sealed - ids)[n := f], level := (s.level - ids)[n := lvl + 1], top := n,
       origin := (s.origin - ids)[n := UnionOf(s.origin, ids)], rewrites := Recounted(s.rewrites, done),
       recorded := Noted(s.recorded, s.index, ids))
  }

  /** One more copy for each key of `done`. */
  ghost function Recounted(rewrites: map<Bytes, nat>, done: set<Bytes>): map<Bytes, nat> {
    map k | k in rewrites :: if k in done then rewrites[k] + 1 else rewrites[k]
  }

  lemma CopiedFile(dir: Dir, idx: Index, done: set<Bytes>, n: nat, f: SegFile, idx': Index)
    requires Copied(dir, idx, done, n, f, idx')
    ensures f.footer.Some? && AllFit(f.recs)
  {
  }

  lemma NextIsNew(dir: Dir, sealed: map<nat, SegFile>, top: nat)
    requires Files(dir, sealed, top)
    ensures top + 1 !in sealed && top + 1 !in dir
  {
  }

  lemma MergeFiles(dir: Dir, sealed: map<nat, SegFile>, top: nat, ids: set<nat>, f: SegFile, dir': Dir)
    requires Files(dir, sealed, top) && Swapped(dir, dir', ids, top + 1, f) && f.footer.Some? && AllFit(f.recs)
    ensures Files(dir', (sealed - ids)[top + 1 := f], top + 1)
  {
  }

  lemma MergeRewritten(s: Segs, ids: set<nat>, lvl: nat, done: set<Bytes>, n: nat, f: SegFile, idx': Index)
    requires Rewritten(s.index, s.level, s.rewrites) && CopiesIds(s.index, ids, done)
    requires forall id :: id in ids ==> LevelOf(s.level, id) == lvl
    requires PointsInto(s.index, s.sealed.Keys) && n !in s.sealed && Copied(s.dir, s.index, done, n, f, idx')
    ensures Rewritten(idx', (s.level - ids)[n := lvl + 1], Recounted(s.rewrites, done))
  {
    hide Copied;
    CopyKeeps(s.dir, s.index, done, n, f, idx');
  }

  lemma MergePoints(s: Segs, ids: set<nat>, done: set<Bytes>, n: nat, f: SegFile, idx': Index)
    requires CopiesIds(s.index, ids, done) && PointsInto(s.index, s.sealed.Keys)
    requires Copied(s.dir, s.index, done, n, f, idx')
    ensures PointsInto(idx', (s.sealed - ids)[n := f].Keys)
  {
    hide Copied;
    CopyKeeps(s.dir, s.index, done, n, f, idx');
  }

  lemma MergeKeeps(s: Segs, done: set<Bytes>, n: nat, f: SegFile, idx': Index)
    requires Copied(s.dir, s.index, done, n, f, idx')
    ensures SameButPlaces(s.index, idx')
  {
    hide Copied;
    CopyKeeps(s.dir, s.index, done, n, f, idx');
    SidecarsKept(s.index, idx');
  }

  lemma SidecarsKept(idx: Index, idx': Index)
    requires forall k :: idx'.At(k).ttl == idx.At(k).ttl && idx'.At(k).blob == idx.At(k).blob
    ensures idx'.ttl == idx.ttl && idx'.blobs == idx.blobs
  {
    forall k ensures Get(idx'.ttl, k) == Get(idx.ttl, k) && Get(idx'.blobs, k) == Get(idx.blobs, k) {
      assert idx'.At(k).ttl == idx.At(k).ttl;
    }
    assert idx'.ttl == idx.ttl by {
      forall k ensures k in idx.ttl <==> k in idx'.ttl { assert Get(idx'.ttl, k) == Get(idx.ttl, k); }
      forall k | k in idx.ttl ensures idx.ttl[k] == idx'.ttl[k] { assert Get(idx'.ttl, k) == Get(idx.ttl, k); }
    }
    assert idx'.blobs == idx.blobs by {
      forall k ensures k in idx.blobs <==> k in idx'.blobs { assert Get(idx'.blobs, k) == Get(idx.blobs, k); }
      forall k | k in idx.blobs ensures idx.blobs[k] == idx'.blobs[k] { assert Get(idx'.blobs, k) == Get(idx.blobs, k); }
    }
  }

  lemma MergeRemembers(s: Segs, ids: set<nat>, done: set<Bytes>, n: nat, f: SegFile, idx': Index, dir': Dir)
    requires Remembers(s.dir, s.sealed.Keys, s.index, s.recorded) && PointsInto(s.index, s.sealed.Keys)
    requires CopiesIds(s.index, ids, done) && Copied(s.dir, s.index, done, n, f, idx') && Swapped(s.dir, dir', ids, n, f)
    ensures Remembers(dir', (s.sealed - ids)[n := f].Keys, idx', Noted(s.recorded, s.index, ids))
  {
    hide Lists, Consistent, ExpiresAt, Remembers;
    forall k | k in idx'.entries ensures RemembersKey(dir', k, idx'.entries[k], Noted(s.recorded, s.index, ids)) {
      if k !in done {
        assert idx'.At(k) == s.index.At(k);
        assert Get(idx'.entries, k) == Get(s.index.entries, k);
        RemembersAt(s.dir, s.sealed.Keys, s.index, s.recorded, k);
      }
    }
    RemembersAll(dir', (s.sealed - ids)[n := f].Keys, idx', Noted(s.recorded, s.index, ids));
  }

  lemma RemembersAt(dir: Dir, ids: set<nat>, idx: Index, recorded: map<Bytes, Option<U64>>, k: Bytes)
    requires Remembers(dir, ids, idx, recorded) && k in idx.entries && idx.entries[k].fileId in ids
    ensures RemembersKey(dir, k, idx.entries[k], recorded)
  {
  }

  lemma RemembersAll(dir: Dir, ids: set<nat>, idx: Index, recorded: map<Bytes, Option<U64>>)
    requires forall k :: k in idx.entries ==> RemembersKey(dir, k, idx.entries[k], recorded)
    ensures Remembers(dir, ids, idx, recorded)
  {
  }

  lemma MergeSealed(dir: Dir, ids: set<nat>, n: nat, f: SegFile, dir': Dir)
    requires AllSealed(dir) && Swapped(dir, dir', ids, n, f) && f.footer.Some?
    ensures AllSealed(dir')
  {
  }

  /** One step of the cascade: nothing about a key changes but the place of its record. */
  lemma MergeCore(fanout: nat, s: Segs, ids: set<nat>, lvl: nat, done: set<Bytes>, f: SegFile, idx': Index, dir': Dir)
    requires Core(fanout, s) && Closed(s) && s.top < U32_MAX
    requires ids <= s.sealed.Keys && |ids| >= fanout && forall id :: id in ids ==> LevelOf(s.level, id) == lvl
    requires CopiesIds(s.index, ids, done) && Copied(s.dir, s.index, done, s.top + 1, f, idx')
    requires Swapped(s.dir, dir', ids, s.top + 1, f)
    ensures var s' := AfterMerge(s, ids, lvl, done, f, idx', dir');
            && Core(fanout, s') && Closed(s')
            && Latest(s'.dir, s'.index) == Latest(s.dir, s.index)
            && SameButPlaces(s.index, s'.index)
  {
    var n := s.top + 1;
    hide Copied, ServesAll, Latest, Tiers, Rewritten, Files, Swapped, CopiesIds, PointsInto, SameButPlaces, UnionOf, Recounted, LevelOf, AllFit, Remembers, AllSealed, Noted;
    MergeRemembers(s, ids, done, n, f, idx', dir');
    CopiedFile(s.dir, s.index, done, n, f, idx');
    NextIsNew(s.dir, s.sealed, s.top);
    MergeKeeps(s, done, n, f, idx');
    MergeServes(s.dir, s.index, ids, done, n, f, idx', dir');
    MergeTiers(fanout, s.sealed.Keys, s.level, s.origin, s.runs, ids, lvl, n);
    MergeFiles(s.dir, s.sealed, s.top, ids, f, dir');
    MergeSealed(s.dir, ids, n, f, dir');
    MergeRewritten(s, ids, lvl, done, n, f, idx');
    MergePoints(s, ids, done, n, f, idx');
    assert ((s.sealed - ids)[n := f]).Keys == s.sealed.Keys - ids + {n};
  }

  /** The footer entry of a live key. */
  function EntryOf(idx: Index, k: Bytes): FooterEntry
    requires k in idx.entries
  {
    var e := idx.entries[k];
    FooterEntry(k, e.offset, e.size, Get(idx.ttl, k), e.tstamp, Get(idx.blobs, k))
  }

  /** `lvl.saturating_add(1)` on an 8-bit level. */
  function NextLevel(lvl: nat): nat {
    if lvl >= 255 then 255 else lvl + 1
  }

  ghost predicate HasRecords(dir: Dir, idx: Index) {
    forall k :: k in idx.entries ==> RecordOf(dir, idx.entries[k]).Some? && RecordOf(dir, idx.entries[k]).value.Fits()
  }

  lemma ServedRecords(dir: Dir, sealed: map<nat, SegFile>, top: nat, idx: Index)
    requires Files(dir, sealed, top) && ServesAll(dir, idx)
    ensures HasRecords(dir, idx)
  {
    hide Resolves;
    forall k | k in idx.entries
      ensures RecordOf(dir, idx.entries[k]).Some? && RecordOf(dir, idx.entries[k]).value.Fits()
    {
      RecordAtFits(dir[idx.entries[k].fileId].recs, idx.entries[k].offset);
    }
  }

  lemma {:induction false} RecordAtFits(rs: seq<Record>, offset: nat)
    requires AllFit(rs) && RecordAt(rs, offset).Some?
    ensures RecordAt(rs, offset).value.Fits()
    decreases |rs|
  {
    if offset != 0 {
      RecordAtFits(rs[1..], offset - rs[0].Size());
    }
  }

  /** Any directory between the rename of a merge and the end of its unlinks is one that the
      merge passes through. */
  lemma MixedSwapped(dir: Dir, ids: set<nat>, n: nat, f: SegFile, dir': Dir, image: Dir)
    requires Swapped(dir, dir[n := f], ids, n, f) && Swapped(dir, dir', ids, n, f) && Mixed(dir[n := f], dir', image)
    ensures Swapped(dir, image, ids, n, f)
  {
    assert Get(image, n) == Some(f);
    forall id | id in image && id != n ensures id in dir && image[id] == dir[id] {
      assert Get(image, id) == Get(dir[n := f], id) || Get(image, id) == Get(dir', id);
    }
    forall id | id in dir && id !in ids ensures id in image {
      assert Get(image, id) == Get(dir[n := f], id) || Get(image, id) == Get(dir', id);
    }
  }

  /** A crash during a merge recovers every key's latest record: before the rename, between
      the rename and the unlinks, and with any of the inputs unlinked. */
  lemma MergeSafe(h: seq<Dir>, dir: Dir, idx: Index, ids: set<nat>, done: set<Bytes>, n: nat, f: SegFile, idx': Index, dir': Dir)
    requires ServesAll(dir, idx) && CopiesIds(idx, ids, done) && Copied(dir, idx, done, n, f, idx')
    requires h != [] && h[|h| - 1] == dir
    requires Swapped(dir, dir[n := f], ids, n, f) && Swapped(dir, dir', ids, n, f)
    ensures SafeSince(h, h + [dir[n := f], dir'], Latest(dir, idx), Latest(dir, idx))
  {
    hide ServesAll, CopiesIds, Copied, Swapped, Latest, Mixed, Recovers;
    var a, h' := Latest(dir, idx), h + [dir[n := f], dir'];
    Serving(dir, idx);
    MergeServes(dir, idx, ids, done, n, f, idx', dir[n := f]);
    Serving(dir[n := f], idx');
    forall i, image | |h| <= i < |h'| && Torn(h', i, image) ensures Recovers(image, a) {
      if i == |h| {
        OneFile(dir, n, f, image);
      } else {
        MixedSwapped(dir, ids, n, f, dir', image);
        MergeServes(dir, idx, ids, done, n, f, idx', image);
        Serving(image, idx');
      }
    }
  }

  lemma CoreParts(fanout: nat, s: Segs)
    requires Core(fanout, s)
    ensures fanout >= 2 && IsTop(s.sealed.Keys, s.activeId, s.top) && Files(s.dir, s.sealed, s.top) && ServesAll(s.dir, s.index)
  {
  }

  lemma Renamed(dir: Dir, sealed: map<nat, SegFile>, top: nat, ids: set<nat>, f: SegFile)
    requires Files(dir, sealed, top) && ids <= sealed.Keys
    ensures Swapped(dir, dir[top + 1 := f], ids, top + 1, f) && top + 1 !in ids
    ensures sealed.Keys <= dir.Keys && forall id :: id in sealed ==> sealed[id] == dir[id]
  {
  }

  /** No run has climbed past level 32. */
  lemma CoreLevels(fanout: nat, s: Segs)
    requires Core(fanout, s)
    ensures forall id :: id in s.level ==> s.level[id] <= 32
    ensures forall id :: id in s.sealed ==> LevelOf(s.level, id) <= 32
  {
    hide Files, ServesAll, Rewritten, Pow;
    forall id | id in s.sealed ensures LevelOf(s.level, id) <= 32 {
      LevelBound(fanout, s.sealed.Keys, s.level, s.origin, s.runs, id);
    }
  }

  lemma FullLevelBound(fanout: nat, s: Segs, lvl: nat)
    requires Core(fanout, s) && |RunsAt(s.sealed.Keys, s.level, lvl)| >= fanout
    ensures lvl <= 32
  {
    hide Files, ServesAll, Rewritten, Tiers;
    CoreLevels(fanout, s);
    var id :| id in RunsAt(s.sealed.Keys, s.level, lvl);
  }

  lemma Serving(dir: Dir, idx: Index)
    requires ServesAll(dir, idx)
    ensures Recovers(dir, Latest(dir, idx))
  {
  }

  lemma Unmoved(idx: Index)
    ensures SameButPlaces(idx, idx)
  {
  }

  lemma MovedTwice(a: Index, b: Index, c: Index)
    requires SameButPlaces(a, b) && SameButPlaces(b, c)
    ensures SameButPlaces(a, c)
  {
  }

  lemma FewerRuns(sealed: map<nat, SegFile>, ids: set<nat>, n: nat, f: SegFile)
    requires ids <= sealed.Keys && |ids| >= 2
    ensures |(sealed - ids)[n := f]| < |sealed|
  {
    assert |sealed.Keys - ids| == |sealed.Keys| - |ids|;
    assert ((sealed - ids)[n := f]).Keys == sealed.Keys - ids + {n};
    assert |sealed.Keys - ids + {n}| <= |sealed.Keys - ids| + 1;
  }

  /** What a merge does to the log. */
  ghost predicate Merged(fanout: nat, s: Segs, s': Segs) {
    && Core(fanout, s') && Closed(s')
    && SameButPlaces(s.index, s'.index) && Latest(s'.dir, s'.index) == Latest(s.dir, s.index)
    && |s'.sealed| < |s.sealed| && s'.activeId == s.activeId && s'.runs == s.runs
  }

  lemma MergeStep(fanout: nat, s: Segs, ids: set<nat>, lvl: nat, done: set<Bytes>, f: SegFile, idx': Index, dir': Dir)
    requires Core(fanout, s) && Closed(s) && s.top < U32_MAX
    requires ids == RunsAt(s.sealed.Keys, s.level, lvl) && |ids| >= fanout
    requires CopiesIds(s.index, ids, done) && Copied(s.dir, s.index, done, s.top + 1, f, idx')
    requires Swapped(s.dir, dir', ids, s.top + 1, f)
    ensures Merged(fanout, s, AfterMerge(s, ids, lvl, done, f, idx', dir'))
  {
    hide Core, Latest, Closed, Copied, CopiesIds, Swapped, SameButPlaces, UnionOf, Recounted, Files, ServesAll, IsTop, Noted;
    CoreParts(fanout, s);
    MergeCore(fanout, s, ids, lvl, done, f, idx', dir');
    FewerRuns(s.sealed, ids, s.top + 1, f);
  }

  /** In any run of the log, the current version of a key has been copied at most
      log_fanout(number of level-0 runs) times. */
  lemma RewriteBound(fanout: nat, s: Segs, k: Bytes)
    requires Core(fanout, s) && k in s.index.entries && s.rewrites.Keys == s.index.entries.Keys
    ensures s.rewrites[k] == 0 || Pow(fanout, s.rewrites[k]) <= |s.runs|
    ensures s.rewrites[k] <= 32
  {
    hide Files, ServesAll, Pow;
    var id := s.index.entries[k].fileId;
    if id in s.level {
      LevelBound(fanout, s.sealed.Keys, s.level, s.origin, s.runs, id);
    }
  }

  /** The file an entry points into is open, and its bytes at the entry's place are the
      encoding of the key's latest record. */
  lemma ReadsBack(crc: Crc, fanout: nat, s: Segs, k: Bytes)
    requires Steady(fanout, s) && k in s.index.entries
    ensures var e := s.index.entries[k];
            && Latest(s.dir, s.index)[k].Some? && Latest(s.dir, s.index)[k].value.Fits()
            && (e.fileId in s.sealed || e.fileId == s.activeId) && e.fileId in s.dir && AllFit(s.dir[e.fileId].recs)
            && (e.fileId in s.sealed ==> s.sealed[e.fileId] == s.dir[e.fileId])
            && e.offset + e.size <= |EncodeAll(crc, s.dir[e.fileId].recs)|
            && EncodeAll(crc, s.dir[e.fileId].recs)[e.offset..e.offset + e.size] == Encode(crc, Latest(s.dir, s.index)[k].value)
  {
    hide Tiers, Rewritten, Resolves, Names, Encode, EncodeAll, Unsealed;
    var e := s.index.entries[k];
    RecordBytes(crc, s.dir[e.fileId].recs, e.offset);
  }

  /** Every live key is readable through the files that are open, unlinked or not. */
  ghost predicate HandlesServe(sealed: map<nat, SegFile>, idx: Index, latest: map<Bytes, Option<Record>>) {
    && latest.Keys == idx.entries.Keys
    && forall k :: k in idx.entries ==>
         idx.entries[k].fileId in sealed && RecordAt(sealed[idx.entries[k].fileId].recs, idx.entries[k].offset) == latest[k]
  }

  lemma CoreHandles(fanout: nat, s: Segs)
    requires Core(fanout, s) && Closed(s)
    ensures HandlesServe(s.sealed, s.index, Latest(s.dir, s.index))
  {
    hide ServesAll, Tiers, Rewritten, IsTop, Remembers;
  }

  lemma SameMerge(s: Segs, dir': Dir, ids: set<nat>, lvl: nat, done: set<Bytes>, f: SegFile, idx': Index)
    ensures AfterMerge(s.(dir := dir'), ids, lvl, done, f, idx', dir') == AfterMerge(s, ids, lvl, done, f, idx', dir')
  {
  }

  lemma ListedSealed(dir: Dir, idx: Index, id: nat, es: seq<FooterEntry>, k: Bytes)
    requires id in dir && FooterFor(es, idx, id)
    ensures ListedBelow(Sealed(dir, id, es), id + 1, k) <==> ListedBelow(dir, id, k) || Lists(es, k)
    ensures Lists(es, k) ==> k in idx.entries
  {
    var dir' := Sealed(dir, id, es);
    if ListedBelow(dir, id, k) {
      var j :| 0 <= j < id && j in dir && dir[j].footer.Some? && Lists(dir[j].footer.value, k);
      assert dir'[j] == dir[j];
    }
    if Lists(es, k) {
      assert id in dir' && dir'[id].footer.Some? && Lists(dir'[id].footer.value, k);
    }
    if ListedBelow(dir', id + 1, k) && !Lists(es, k) {
      var j :| 0 <= j < id + 1 && j in dir' && dir'[j].footer.Some? && Lists(dir'[j].footer.value, k);
      assert j != id && dir[j] == dir'[j];
    }
  }

  /** After a clean shutdown exactly the live keys come back if and only if no footer already
      on disk lists a key that is gone. */
  lemma ShutdownKeys(fanout: nat, s: Segs, es: seq<FooterEntry>)
    requires Steady(fanout, s) && s.activeId in s.dir && FooterFor(es, s.index, s.activeId)
    ensures Reopen(Sealed(s.dir, s.activeId, es), s.activeId + 1).entries == s.index.entries
            <==> forall k :: ListedBelow(s.dir, s.activeId, k) ==> k in s.index.entries
  {
    hide ServesAll, Tiers, Rewritten, Remembers, Unsealed, FooterFor, AllSealed, Sealed, OthersSealed, ListedBelow, Lists, Reopen, Latest, PointsInto;
    var dir' := Sealed(s.dir, s.activeId, es);
    SealOthers(s.dir, s.activeId, es);
    FooterServes(s.dir, s.index, s.activeId, es);
    SealedIds(s.dir, s.activeId, es);
    CleanShutdownExact(dir', s.index, s.activeId + 1);
    forall k
      ensures ListedBelow(dir', s.activeId + 1, k) <==> ListedBelow(s.dir, s.activeId, k) || Lists(es, k)
      ensures Lists(es, k) ==> k in s.index.entries
    {
      ListedSealed(s.dir, s.index, s.activeId, es, k);
    }
  }

  /** Every blob hash comes back as it was. */
  lemma ShutdownBlobs(fanout: nat, s: Segs, es: seq<FooterEntry>, k: Bytes)
    requires Steady(fanout, s) && s.activeId in s.dir && FooterFor(es, s.index, s.activeId) && k in s.index.entries
    ensures Reopen(Sealed(s.dir, s.activeId, es), s.activeId + 1).At(k).blob == s.index.At(k).blob
  {
    hide Tiers, Rewritten, Remembers, Unsealed, FooterFor, Sealed, OthersSealed, Reopen, PointsInto, Serves;
    var dir' := Sealed(s.dir, s.activeId, es);
    SealOthers(s.dir, s.activeId, es);
    FooterServes(s.dir, s.index, s.activeId, es);
    SealedIds(s.dir, s.activeId, es);
    ReopenLatest(dir', s.index, s.activeId + 1);
    assert Carries(dir', s.index, k);
  }

  lemma SealedIds(dir: Dir, id: nat, es: seq<FooterEntry>)
    requires id in dir
    ensures Sealed(dir, id, es).Keys == dir.Keys
  {
  }

  /** And the expiry that comes back is the one the key has, if it is in the active file, and
      otherwise the one it had when the footer of its file was written. */
  lemma ShutdownExpiry(fanout: nat, s: Segs, es: seq<FooterEntry>, k: Bytes)
    requires Steady(fanout, s) && s.activeId in s.dir && FooterFor(es, s.index, s.activeId) && k in s.index.entries
    ensures s.index.entries[k].fileId == s.activeId || k in s.recorded
    ensures Reopen(Sealed(s.dir, s.activeId, es), s.activeId + 1).At(k).ttl
            == if s.index.entries[k].fileId == s.activeId then s.index.At(k).ttl else s.recorded[k]
  {
    hide ServesAll, Tiers, Rewritten, Remembers, Unsealed, FooterFor, AllSealed, Sealed, OthersSealed, ListedBelow, Lists, Reopen, Latest, PointsInto, ExpiresAt;
    var dir', e := Sealed(s.dir, s.activeId, es), s.index.entries[k];
    var at := if e.fileId == s.activeId then s.index.At(k).ttl else if k in s.recorded then s.recorded[k] else None;
    SealOthers(s.dir, s.activeId, es);
    FooterServes(s.dir, s.index, s.activeId, es);
    ServesAt(dir', s.index, k);
    PointsAt(s.index, s.sealed.Keys + {s.activeId}, k);
    if e.fileId == s.activeId {
      FooterExpires(s.index, s.dir, s.activeId, es, k);
    } else {
      RemembersAt(s.dir, s.sealed.Keys, s.index, s.recorded, k);
      SealedElsewhere(s.dir, s.activeId, es, e.fileId);
    }
    SealedExpiry(dir', k, e, at, s.activeId + 1);
  }

  lemma ServesAt(dir: Dir, idx: Index, k: Bytes)
    requires ServesAll(dir, idx) && k in idx.entries
    ensures Serves(dir, k, idx.entries[k]) && Carries(dir, idx, k)
  {
  }

  lemma PointsAt(idx: Index, ids: set<nat>, k: Bytes)
    requires PointsInto(idx, ids) && k in idx.entries
    ensures idx.entries[k].fileId in ids
  {
  }

  lemma SealedElsewhere(dir: Dir, id: nat, es: seq<FooterEntry>, j: nat)
    requires id in dir && j in dir && j != id
    ensures j in Sealed(dir, id, es) && Sealed(dir, id, es)[j] == dir[j]
  {
  }

  lemma FooterExpires(idx: Index, dir: Dir, id: nat, es: seq<FooterEntry>, k: Bytes)
    requires id in dir && FooterFor(es, idx, id)
    ensures id in Sealed(dir, id, es) && Sealed(dir, id, es)[id].footer == Some(es)
    ensures ExpiresAt(es, k, idx.At(k).ttl)
  {
  }

  lemma SteadyParts(fanout: nat, s: Segs)
    requires Steady(fanout, s)
    ensures s.activeId in s.dir && s.activeId == s.top && ServesAll(s.dir, s.index) && OthersSealed(s.dir, s.activeId)
    ensures forall id :: id in s.dir ==> id <= s.activeId
  {
  }

  lemma SteadyCore(fanout: nat, s: Segs)
    requires Steady(fanout, s)
    ensures Core(fanout, s)
  {
  }

  lemma SteadyServes(fanout: nat, s: Segs)
    requires Steady(fanout, s)
    ensures Recovers(s.dir, Latest(s.dir, s.index))
  {
    hide Files, ServesAll, Tiers, Rewritten, Unsealed, Latest;
    Serving(s.dir, s.index);
  }

  /** A crash while a record is appended. */
  lemma AppendSafe(fanout: nat, s: Segs, s': Segs, r: Record, h: seq<Dir>)
    requires Steady(fanout, s) && Steady(fanout, s') && s.activeId in s.dir && s'.dir == Appended(s.dir, s.activeId, r)
    requires h != [] && h[|h| - 1] == s.dir
    ensures SafeSince(h, h + [s'.dir], Latest(s.dir, s.index), Latest(s'.dir, s'.index))
  {
    hide Steady, Latest, Recovers, SafeSince;
    SteadyServes(fanout, s);
    SteadyServes(fanout, s');
    SafeWrite(h, s.activeId, s.dir[s.activeId].(recs := s.dir[s.activeId].recs + [r]), Latest(s.dir, s.index), Latest(s'.dir, s'.index));
  }

  /** The last state of a safe stretch recovers too. */
  lemma LastSafe(h0: seq<Dir>, h: seq<Dir>, a: map<Bytes, Option<Record>>)
    requires 0 < |h0| < |h| && SafeSince(h0, h, a, a)
    ensures Recovers(h[|h| - 1], a)
  {
    hide Recovers;
    assert Torn(h, |h| - 1, h[|h| - 1]);
  }
}
