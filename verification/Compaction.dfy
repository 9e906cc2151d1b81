/** A namespace of many segments: writes to the active file, rotation, the shutdown seal,
    and the reclaim that merges sealed runs tier by tier. */
module Compaction {
  import opened Types
  import opened Records
  import opened Footer
  import opened NamespaceIndex
  import opened Segments
  import opened Merge
  import opened SegmentState

  /** How a merge or a reclaim ends. */
  datatype Outcome = Finished | OutOfIds | OpenFailed

  class SegmentedLog {
    const fanout: nat
    var dir: Dir
    var index: Index
    var activeId: nat
    var sealed: map<nat, SegFile>
    var level: map<nat, nat>
    ghost var top: nat
    ghost var origin: map<nat, set<nat>>
    ghost var runs: set<nat>
    ghost var rewrites: map<Bytes, nat>
    ghost var recorded: map<Bytes, Option<U64>>
    /** The directories the disk has held, one per file written or batch of unlinks. */
    ghost var history: seq<Dir>

    ghost function View(): Segs
      reads this
    {
      Segs(dir, index, activeId, sealed, level, top, origin, runs, rewrites, recorded)
    }

    ghost predicate OnDisk()
      reads this
    {
      history != [] && history[|history| - 1] == dir
    }

    ghost predicate Valid()
      reads this
    {
      activeId in dir && Steady(fanout, View()) && OnDisk()
    }

    constructor (fanout: nat)
      requires fanout >= 2
      ensures Valid() && this.fanout == fanout && Latest(dir, index) == map[]
      ensures activeId == 0 && top == 0 && dir == map[0 := SegFile([], None)] && index == EMPTY && history == [dir]
    {
      this.fanout := fanout;
      dir, index, activeId, sealed, level := map[0 := SegFile([], None)], EMPTY, 0, map[], map[];
      top, origin, runs, rewrites, recorded := 0, map[], {}, map[], map[];
      history := [map[0 := SegFile([], None)]];
    }

    /** One step of the disk: a file is created, extended, footered or renamed into place. */
    method WriteFile(id: nat, f: SegFile)
      modifies this`dir, this`history
      ensures dir == old(dir)[id := f] && history == old(history) + [dir]
    {
      dir := dir[id := f];
      history := history + [dir];
    }

    /** `append` to the active file. */
    method AppendRecord(r: Record)
      requires activeId in dir
      modifies this`dir, this`history
      ensures dir == Appended(old(dir), activeId, r) && history == old(history) + [dir]
    {
      WriteFile(activeId, dir[activeId].(recs := dir[activeId].recs + [r]));
    }

    /** Append a full record and index it. */
    method Put(r: Record)
      requires Valid() && r.Fits() && r.IsFull()
      modifies this
      ensures Valid() && View() == AfterPut(old(View()), r)
      ensures Latest(dir, index) == old(Latest(dir, index))[r.key := Some(r)]
      ensures SafeSince(old(history), history, old(Latest(dir, index)), Latest(dir, index))
    {
      hide Steady, Latest, Record.IsFull, Record.Fits, Recorded, SafeSince, Recovers;
      PutSteady(fanout, View(), r);
      AppendSafe(fanout, View(), AfterPut(View(), r), r, history);
      var offset := TotalSize(dir[activeId].recs);
      AppendRecord(r);
      index := Recorded(index, IndexEntry(activeId, offset, r.Size(), r.tstamp), r);
      rewrites := rewrites[r.key := 0];
    }

    /** Drop the key and append its tombstone. */
    method Delete(r: Record) returns (found: bool)
      requires Valid() && r.Fits() && r.IsTombstone()
      modifies this
      ensures Valid() && found == (r.key in old(index.entries))
      ensures View() == if found then AfterDelete(old(View()), r) else old(View())
      ensures Latest(dir, index) == old(Latest(dir, index)) - {r.key}
      ensures SafeSince(old(history), history, old(Latest(dir, index)), Latest(dir, index))
    {
      hide Steady, Record.IsTombstone, Record.Fits, RecordOf, SafeSince, Recovers;
      found := r.key in index.entries;
      if found {
        hide Latest;
        DeleteSteady(fanout, View(), r);
        AppendSafe(fanout, View(), AfterDelete(View(), r), r, history);
        index := index.Remove(r.key);
        AppendRecord(r);
        rewrites := rewrites - {r.key};
      } else {
        assert Latest(dir, index) == Latest(dir, index) - {r.key};
        SafeNow(history, Latest(dir, index), Latest(dir, index));
      }
    }

    /** Append a TTL update; the record itself is not rewritten. */
    method UpdateTtl(r: Record)
      requires Valid() && r.Fits() && r.IsTtlUpdate()
      modifies this
      ensures Valid() && View() == AfterTtl(old(View()), r)
      ensures Latest(dir, index) == old(Latest(dir, index))
      ensures SafeSince(old(history), history, Latest(dir, index), Latest(dir, index))
    {
      hide Steady, Latest, Record.IsTtlUpdate, Record.Fits, SafeSince, Recovers;
      TtlSteady(fanout, View(), r);
      AppendSafe(fanout, View(), AfterTtl(View(), r), r, history);
      AppendRecord(r);
      index := index.SetTtl(r.key, r.Expiry());
    }

    /** The live keys of the files `ids`, each once. */
    method LiveIn(ids: set<nat>) returns (live: seq<Bytes>)
      ensures forall k :: k in live <==> k in index.entries && index.entries[k].fileId in ids
      ensures forall i, j :: 0 <= i < j < |live| ==> live[i] != live[j]
    {
      live := [];
      var rest := index.entries.Keys;
      while rest != {}
        invariant rest <= index.entries.Keys
        invariant forall k :: k in live <==> k in index.entries && k !in rest && index.entries[k].fileId in ids
        invariant forall i, j :: 0 <= i < j < |live| ==> live[i] != live[j]
        decreases |rest|
      {
        var k :| k in rest;
        rest := rest - {k};
        if index.entries[k].fileId in ids {
          live := live + [k];
        }
      }
    }

    /** One footer entry per live key of the file. */
    method BuildFooter(id: nat) returns (es: seq<FooterEntry>)
      ensures FooterFor(es, index, id)
    {
      var live := LiveIn({id});
      es := [];
      for i := 0 to |live|
        invariant |es| == i
        invariant forall j :: 0 <= j < i ==> live[j] in index.entries && es[j] == EntryOf(index, live[j])
      {
        es := es + [EntryOf(index, live[i])];
      }
      forall k | k in index.entries && index.entries[k].fileId == id ensures Lists(es, k) {
        assert k in live;
        var i :| 0 <= i < |live| && live[i] == k;
        assert es[i].key == k;
      }
    }
  
    /** One more than the highest id of an open file; none when ids run out. */
    method NextId() returns (n: Option<nat>)
      requires IsTop(sealed.Keys, activeId, top)
      ensures n == if top < U32_MAX then Some(top + 1) else None
    {
      var highest := activeId;
      var rest := sealed.Keys;
      while rest != {}
        invariant rest <= sealed.Keys
        invariant highest == activeId || highest in sealed
        invariant highest >= activeId && forall id :: id in sealed && id !in rest ==> id <= highest
        decreases |rest|
      {
        var id :| id in rest;
        rest := rest - {id};
        if id > highest {
          highest := id;
        }
      }
      n := if highest < U32_MAX then Some(highest + 1) else None;
    }

    /** The footer of a clean shutdown: the file stays the active one. Reopening then finds
        exactly the live keys if and only if no footer already on disk lists a key that is
        gone, and finds a key's expiry if and only if the key is in the active file or its
        expiry has not changed since the footer of its file was written. Blob hashes all come
        back. */
    method SealForShutdown()
      requires Valid()
      modifies this`dir, this`history
      ensures ServesAll(dir, index) && Latest(dir, index) == old(Latest(dir, index))
      ensures AllSealed(dir) && dir.Keys == old(dir.Keys) && dir[activeId].recs == old(dir[activeId].recs)
      ensures forall id :: id in dir && id != activeId ==> dir[id] == old(dir)[id]
      ensures Reopen(dir, activeId + 1).entries == index.entries
              <==> forall k :: ListedBelow(old(dir), activeId, k) ==> k in index.entries
      ensures forall k :: k in index.entries ==>
                && (index.entries[k].fileId == activeId || k in recorded)
                && Reopen(dir, activeId + 1).At(k).ttl == if index.entries[k].fileId == activeId then index.At(k).ttl else recorded[k]
      ensures forall k :: k in index.entries ==>
                (Reopen(dir, activeId + 1).At(k).ttl == index.At(k).ttl
                 <==> index.entries[k].fileId == activeId || recorded[k] == index.At(k).ttl)
      ensures forall k :: k in index.entries ==> Reopen(dir, activeId + 1).At(k).blob == index.At(k).blob
      ensures OnDisk() && SafeSince(old(history), history, Latest(dir, index), Latest(dir, index))
    {
      hide Steady, Latest, ServesAll, FooterFor, AllSealed, Reopen, ListedBelow, SafeSince, Recovers;
      var es := BuildFooter(activeId);
      SteadyParts(fanout, View());
      FooterServes(dir, index, activeId, es);
      SealOthers(dir, activeId, es);
      ShutdownKeys(fanout, View(), es);
      forall k | k in index.entries
        ensures index.entries[k].fileId == activeId || k in recorded
        ensures Reopen(Sealed(dir, activeId, es), activeId + 1).At(k).ttl
                == if index.entries[k].fileId == activeId then index.At(k).ttl else recorded[k]
        ensures Reopen(Sealed(dir, activeId, es), activeId + 1).At(k).blob == index.At(k).blob
      {
        ShutdownExpiry(fanout, View(), es, k);
        ShutdownBlobs(fanout, View(), es, k);
      }
      Serving(dir, index);
      Serving(Sealed(dir, activeId, es), index);
      SafeWrite(history, activeId, dir[activeId].(footer := Some(es)), Latest(dir, index), Latest(dir, index));
      WriteFile(activeId, dir[activeId].(footer := Some(es)));
    }

    /** Write the footer of the active file and keep it open as a level-0 run. */
    method SealActive()
      requires Valid()
      modifies this
      ensures Core(fanout, View()) && Closed(View()) && OnDisk() && activeId == old(activeId) && top == old(top)
      ensures Latest(dir, index) == old(Latest(dir, index)) && index == old(index) && runs == old(runs) + {old(activeId)}
      ensures |history| > |old(history)| && SafeSince(old(history), history, Latest(dir, index), Latest(dir, index))
      ensures dir.Keys == old(dir.Keys) && dir[activeId].footer.Some? && FooterFor(dir[activeId].footer.value, index, activeId)
      ensures recorded == Noted(old(recorded), index, {activeId})
    {
      hide Steady, Core, Files, ServesAll, Latest, FooterFor, Recovers, SafeSince, Closed, Noted, IsTop;
      SteadyCore(fanout, View());
      var es := BuildFooter(activeId);
      ghost var after := AfterSeal(View(), es);
      SealCore(fanout, View(), es);
      CoreParts(fanout, View());
      Serving(dir, index);
      CoreParts(fanout, after);
      Serving(after.dir, index);
      SafeWrite(history, activeId, dir[activeId].(footer := Some(es)), Latest(dir, index), Latest(dir, index));
      WriteFile(activeId, dir[activeId].(footer := Some(es)));
      sealed := sealed[activeId := dir[activeId]];
      origin, runs := origin[activeId := {activeId}], runs + {activeId};
      recorded := Noted(recorded, index, {activeId});
      assert View() == after;
    }

    /** Open a fresh active file above every other. */
    method OpenActive() returns (ok: bool)
      requires Core(fanout, View()) && Closed(View()) && OnDisk()
      modifies this`dir, this`activeId, this`top, this`history
      ensures ok == (old(top) < U32_MAX)
      ensures if ok then Valid() && activeId == old(top) + 1 && Latest(dir, index) == old(Latest(dir, index))
              else View() == old(View()) && OnDisk()
      ensures ok ==> dir == old(dir)[activeId := SegFile([], None)] && activeId !in old(dir)
      ensures SafeSince(old(history), history, old(Latest(dir, index)), old(Latest(dir, index)))
    {
      hide Core, Files, ServesAll, Latest, Closed, IsTop, Unsealed, Recovers, SafeSince;
      CoreParts(fanout, View());
      SafeNow(history, Latest(dir, index), Latest(dir, index));
      var n := NextId();
      if n.None? {
        return false;
      }
      ghost var after := AfterOpen(View());
      NextIsNew(dir, sealed, top);
      OpenSteady(fanout, View());
      SteadyParts(fanout, after);
      Serving(dir, index);
      Serving(after.dir, index);
      SafeWrite(history, n.value, SegFile([], None), Latest(dir, index), Latest(dir, index));
      WriteFile(n.value, SegFile([], None));
      activeId, top := n.value, n.value;
      assert View() == after;
      ok := true;
    }

    /** Seal the active file as a level-0 run and open the next one. */
    method RotateActive() returns (ok: bool)
      requires Valid()
      modifies this
      ensures ok == (old(top) < U32_MAX)
      ensures if ok then Valid() && activeId == old(activeId) + 1 else top == old(top)
      ensures OnDisk() && Latest(dir, index) == old(Latest(dir, index)) && index == old(index) && runs == old(runs) + {old(activeId)}
      ensures ServesAll(dir, index)
      ensures SafeSince(old(history), history, Latest(dir, index), Latest(dir, index))
      ensures old(activeId) in dir && dir[old(activeId)].footer.Some?
      ensures FooterFor(dir[old(activeId)].footer.value, index, old(activeId))
      ensures recorded == Noted(old(recorded), index, {old(activeId)})
    {
      hide Core, Files, ServesAll, Latest, Closed, Unsealed, Recovers, SafeSince, FooterFor, Noted;
      SealActive();
      CoreParts(fanout, View());
      ghost var h := history;
      ok := OpenActive();
      SafeTwice(old(history), h, history, Latest(dir, index));
      if ok {
        SteadyParts(fanout, View());
      }
    }

    /** Copy the live records of the files `ids` into a new file `n`, with its footer and
        the index entries it will have. */
    method CopyLive(ids: set<nat>, n: nat) returns (f: SegFile, idx': Index, ghost done: set<Bytes>)
      requires ids <= sealed.Keys && sealed.Keys <= dir.Keys && HasRecords(dir, index)
      requires forall id :: id in sealed ==> sealed[id] == dir[id]
      ensures CopiesIds(index, ids, done) && Copied(dir, index, done, n, f, idx')
    {
      var live := LiveIn(ids);
      f, idx', done := SegFile([], Some([])), index, {};
      for i := 0 to |live|
        invariant Copied(dir, index, done, n, f, idx')
        invariant forall k :: k in done <==> k in live[..i]
      {
        var k := live[i];
        var e := index.entries[k];
        var r := RecordAt(sealed[e.fileId].recs, e.offset).value;
        var x := FooterEntry(k, TotalSize(f.recs), e.size, Get(index.ttl, k), e.tstamp, r.Blob());
        assert k !in live[..i];
        CopyStep(dir, index, done, n, f, idx', k, r, x);
        idx' := idx'.Insert(k, IndexEntry(n, TotalSize(f.recs), e.size, e.tstamp), Get(index.ttl, k));
        f := WithCopy(f, r, x);
        done := done + {k};
        hide Copied;
      }
    }

    /** Unlink the inputs, all in one step of the disk; some may stay behind. */
    method Unlink(ids: set<nat>, removable: nat -> bool, ghost before: Dir, ghost n: nat, ghost f: SegFile)
      requires Swapped(before, dir, ids, n, f) && n !in ids
      modifies this`dir, this`history
      ensures Swapped(before, dir, ids, n, f) && history == old(history) + [dir]
      ensures dir.Keys == old(dir.Keys) - set id | id in ids && removable(id)
    {
      var rest := ids;
      while rest != {}
        invariant rest <= ids && Swapped(before, dir, ids, n, f) && history == old(history)
        invariant dir.Keys == old(dir.Keys) - set id | id in ids && id !in rest && removable(id)
        decreases |rest|
      {
        var id :| id in rest;
        rest := rest - {id};
        if removable(id) {
          dir := dir - {id};
        }
      }
      history := history + [dir];
    }

    /** The lowest level with at least `fanout` runs. */
    method FindFullLevel() returns (lvl: Option<nat>)
      requires fanout >= 1 && forall id :: id in level ==> level[id] <= 255
      ensures lvl.Some? ==> |RunsAt(sealed.Keys, level, lvl.value)| >= fanout
                            && forall l: nat :: l < lvl.value ==> |RunsAt(sealed.Keys, level, l)| < fanout
      ensures lvl.None? ==> forall l: nat :: |RunsAt(sealed.Keys, level, l)| < fanout
    {
      for l := 0 to 256
        invariant forall j :: 0 <= j < l ==> |RunsAt(sealed.Keys, level, j)| < fanout
      {
        if |RunsAt(sealed.Keys, level, l)| >= fanout {
          return Some(l);
        }
      }
      forall l: nat | l > 255 ensures |RunsAt(sealed.Keys, level, l)| < fanout {
        assert RunsAt(sealed.Keys, level, l) == {};
      }
      return None;
    }
  
    /** Make the merged file visible and unlink what it replaces. */
    method Publish(ids: set<nat>, n: nat, f: SegFile, removable: nat -> bool)
      requires Files(dir, sealed, top) && ids <= sealed.Keys && n == top + 1
      modifies this`dir, this`history
      ensures Swapped(old(dir), old(dir)[n := f], ids, n, f) && Swapped(old(dir), dir, ids, n, f)
      ensures history == old(history) + [old(dir)[n := f], dir]
    {
      hide Files, Swapped;
      ghost var before := dir;
      Renamed(dir, sealed, top, ids, f);
      WriteFile(n, f);
      Unlink(ids, removable, before, n, f);
    }

    /** The in-memory swap. */
    method Commit(ids: set<nat>, lvl: nat, n: nat, f: SegFile, idx': Index, ghost done: set<Bytes>)
      requires n == top + 1 && lvl <= 32
      modifies this`index, this`sealed, this`level, this`top, this`origin, this`rewrites, this`recorded
      ensures View() == AfterMerge(old(View()), ids, lvl, done, f, idx', dir)
    {
      hide UnionOf, Recounted, Noted;
      recorded := Noted(recorded, index, ids);
      index, sealed, level := idx', (sealed - ids)[n := f], (level - ids)[n := NextLevel(lvl)];
      top, origin, rewrites := n, (origin - ids)[n := UnionOf(origin, ids)], Recounted(rewrites, done);
    }

    /** Copy the live records and publish the merged file: a crash at any point on the way
        recovers every key's latest record. */
    method WriteMerged(ids: set<nat>, n: nat, removable: nat -> bool)
      returns (f: SegFile, idx': Index, ghost done: set<Bytes>)
      requires Files(dir, sealed, top) && ServesAll(dir, index) && OnDisk()
      requires ids <= sealed.Keys && n == top + 1
      modifies this`dir, this`history
      ensures CopiesIds(index, ids, done) && Copied(old(dir), index, done, n, f, idx')
      ensures Swapped(old(dir), dir, ids, n, f)
      ensures OnDisk() && SafeSince(old(history), history, old(Latest(dir, index)), old(Latest(dir, index)))
    {
      hide Files, ServesAll, Copied, CopiesIds, Swapped, HasRecords, SafeSince, Latest;
      ServedRecords(dir, sealed, top, index);
      Renamed(dir, sealed, top, ids, SegFile([], None));
      f, idx', done := CopyLive(ids, n);
      Publish(ids, n, f, removable);
      MergeSafe(old(history), old(dir), index, ids, done, n, f, idx', dir);
    }

    /** Merge the runs of one level into a run of the next. When the merged file cannot be
        opened, nothing in memory has changed. */
    method MergeLevel(lvl: nat, removable: nat -> bool, opens: nat -> bool) returns (outcome: Outcome)
      requires Core(fanout, View()) && Closed(View()) && OnDisk()
      requires |RunsAt(sealed.Keys, level, lvl)| >= fanout && lvl <= 32
      modifies this
      ensures outcome == if old(top) >= U32_MAX then OutOfIds else if opens(old(top) + 1) then Finished else OpenFailed
      ensures outcome.Finished? ==> Merged(fanout, old(View()), View())
      ensures outcome.OutOfIds? ==> View() == old(View())
      ensures outcome.OpenFailed? ==>
                index == old(index) && sealed == old(sealed) && runs == old(runs) && HandlesServe(sealed, index, old(Latest(dir, index)))
      ensures OnDisk() && SafeSince(old(history), history, old(Latest(dir, index)), old(Latest(dir, index)))
    {
      hide Core, Files, ServesAll, Latest, Closed, Copied, CopiesIds, Swapped, SafeSince, IsTop, Merged, AfterMerge, HandlesServe;
      ghost var s := View();
      var ids := RunsAt(sealed.Keys, level, lvl);
      CoreParts(fanout, s);
      CoreHandles(fanout, s);
      var next := NextId();
      if next.None? {
        SafeNow(history, Latest(dir, index), Latest(dir, index));
        return OutOfIds;
      }
      ghost var done;
      var f, idx';
      f, idx', done := WriteMerged(ids, next.value, removable);
      if !opens(next.value) {
        return OpenFailed;
      }
      MergeStep(fanout, s, ids, lvl, done, f, idx', dir);
      SameMerge(s, dir, ids, lvl, done, f, idx');
      Commit(ids, lvl, next.value, f, idx', done);
      outcome := Finished;
    }

    /** While some level holds at least `fanout` runs, merge it into the next. */
    method Cascade(removable: nat -> bool, opens: nat -> bool) returns (outcome: Outcome)
      requires Core(fanout, View()) && Closed(View()) && OnDisk()
      modifies this
      ensures !outcome.OpenFailed? ==>
                Core(fanout, View()) && Closed(View()) && Latest(dir, index) == old(Latest(dir, index))
      ensures outcome.Finished? ==> forall lvl: nat :: |RunsAt(sealed.Keys, level, lvl)| < fanout
      ensures outcome.OutOfIds? ==> top >= U32_MAX
      ensures outcome.OpenFailed? ==> HandlesServe(sealed, index, old(Latest(dir, index))) && exists n :: !opens(n)
      ensures SameButPlaces(old(index), index) && runs == old(runs)
      ensures OnDisk() && SafeSince(old(history), history, old(Latest(dir, index)), old(Latest(dir, index)))
    {
      hide Core, Files, ServesAll, Latest, Closed, SafeSince, RunsAt, SameButPlaces, HandlesServe;
      ghost var latest := Latest(dir, index);
      Unmoved(index);
      SafeNow(history, latest, latest);
      while true
        invariant Core(fanout, View()) && Closed(View()) && OnDisk()
        invariant SameButPlaces(old(index), index) && Latest(dir, index) == latest && runs == old(runs)
        invariant SafeSince(old(history), history, latest, latest)
        decreases |sealed|
      {
        CoreParts(fanout, View());
        CoreLevels(fanout, View());
        var lvl := FindFullLevel();
        if lvl.None? {
          return Finished;
        }
        FullLevelBound(fanout, View(), lvl.value);
        ghost var index0, h := index, history;
        outcome := MergeLevel(lvl.value, removable, opens);
        SafeTwice(old(history), h, history, latest);
        if !outcome.Finished? {
          return;
        }
        MovedTwice(old(index), index0, index);
      }
    }

    /** Seal the active file, merge while some level is full, open a fresh active file. A
        crash at any point recovers every key's latest record. */
    method Reclaim(removable: nat -> bool, opens: nat -> bool) returns (outcome: Outcome)
      requires Valid()
      modifies this
      ensures outcome.Finished? ==> Valid() && forall lvl: nat :: |RunsAt(sealed.Keys, level, lvl)| < fanout
      ensures outcome.OutOfIds? ==> top >= U32_MAX
      ensures if outcome.OpenFailed? then HandlesServe(sealed, index, old(Latest(dir, index))) && exists n :: !opens(n)
              else Latest(dir, index) == old(Latest(dir, index))
      ensures SameButPlaces(old(index), index) && runs == old(runs) + {old(activeId)}
      ensures OnDisk() && |history| > |old(history)|
      ensures SafeSince(old(history), history, old(Latest(dir, index)), old(Latest(dir, index)))
    {
      hide Core, Files, ServesAll, Latest, Closed, Unsealed, SafeSince, RunsAt, SameButPlaces, HandlesServe, Noted, FooterFor;
      ghost var latest := Latest(dir, index);
      SealActive();
      ghost var h := history;
      outcome := Cascade(removable, opens);
      SafeTwice(old(history), h, history, latest);
      SafeGrows(h, history, latest);
      h := history;
      if outcome.Finished? {
        var ok := OpenActive();
        SafeGrows(h, history, latest);
        SafeTwice(old(history), h, history, latest);
        outcome := if ok then Finished else OutOfIds;
      }
    }
  }

  datatype Op = PutOp(r: Record) | DeleteOp(r: Record) | TtlOp(r: Record) | RotateOp
              | ReclaimOp(removable: nat -> bool, opens: nat -> bool)

  predicate WellFormed(op: Op) {
    match op
    case PutOp(r) => r.Fits() && r.IsFull()
    case DeleteOp(r) => r.Fits() && r.IsTombstone()
    case TtlOp(r) => r.Fits() && r.IsTtlUpdate()
    case _ => true
  }

  ghost predicate OpenCanFail(op: Op) {
    op.ReclaimOp? && exists id :: !op.opens(id)
  }

  function ApplyOp(m: map<Bytes, Option<Record>>, op: Op): map<Bytes, Option<Record>> {
    match op
    case PutOp(r) => m[r.key := Some(r)]
    case DeleteOp(r) => m - {r.key}
    case _ => m
  }

  /** What a run means: the last record put under each key not deleted since. */
  function Meaning(ops: seq<Op>): map<Bytes, Option<Record>> {
    if ops == [] then map[] else ApplyOp(Meaning(ops[..|ops| - 1]), ops[|ops| - 1])
  }

  /** One operation; it fails when ids run out or a merged file cannot be opened. A crash at
      any point on the way recovers what was there before it or what it means. */
  method Execute(log: SegmentedLog, op: Op) returns (ok: bool)
    requires log.Valid() && WellFormed(op)
    modifies log
    ensures ok ==> log.Valid() && Latest(log.dir, log.index) == ApplyOp(old(Latest(log.dir, log.index)), op)
    ensures !ok ==> log.top >= U32_MAX || OpenCanFail(op)
    ensures log.OnDisk() && Recovers(log.dir, ApplyOp(old(Latest(log.dir, log.index)), op))
    ensures SafeSince(old(log.history), log.history, old(Latest(log.dir, log.index)), ApplyOp(old(Latest(log.dir, log.index)), op))
  {
    hide Steady, Latest, Recovers, SafeSince, RunsAt, SameButPlaces, HandlesServe, AfterPut, AfterDelete, AfterTtl, Noted, FooterFor, ServesAll,
         Record.IsFull, Record.IsTombstone, Record.IsTtlUpdate, Record.Fits;
    ok := true;
    match op {
      case PutOp(r) => log.Put(r);
      case DeleteOp(r) => var _ := log.Delete(r);
      case TtlOp(r) => log.UpdateTtl(r);
      case RotateOp =>
        ok := log.RotateActive();
        Serving(log.dir, log.index);
      case ReclaimOp(removable, opens) =>
        var outcome := log.Reclaim(removable, opens);
        LastSafe(old(log.history), log.history, old(Latest(log.dir, log.index)));
        ok := outcome.Finished?;
    }
    if ok {
      SteadyServes(log.fanout, log.View());
    }
  }

  /** The lengths of the disk's history before each operation and after the last, for a run of
      `n` operations: a crash inside operation `i` recovers what the first `i` operations
      mean, or what the first `i + 1` do. */
  ghost predicate RunSafe(ops: seq<Op>, n: nat, marks: seq<nat>, h: seq<Dir>) {
    && n <= |ops| && |marks| == n + 1 && marks[0] == 1 && marks[n] == |h|
    && (forall i :: 0 <= i <= n ==> 0 < marks[i] <= |h| && Recovers(h[marks[i] - 1], Meaning(ops[..i])))
    && (forall i :: 0 <= i < n ==>
          marks[i] <= marks[i + 1] && SafeSince(h[..marks[i]], h[..marks[i + 1]], Meaning(ops[..i]), Meaning(ops[..i + 1])))
  }

  /** Any run from an empty namespace, until it ends or an operation fails. When nothing
      fails the index and the files say what the operations mean; in every case a crash
      inside any operation leaves a directory from which reopening recovers what the
      operations so far mean, with that one or without it. */
  method Run(fanout: nat, ops: seq<Op>) returns (log: SegmentedLog, ok: bool, n: nat, ghost marks: seq<nat>)
    requires fanout >= 2 && forall i :: 0 <= i < |ops| ==> WellFormed(ops[i])
    ensures n <= |ops| && log.OnDisk() && Recovers(log.dir, Meaning(ops[..n]))
    ensures ok ==> n == |ops| && log.Valid() && Latest(log.dir, log.index) == Meaning(ops)
    ensures !ok ==> n > 0 && (log.top >= U32_MAX || OpenCanFail(ops[n - 1]))
    ensures RunSafe(ops, n, marks, log.history)
  {
    hide Latest, Recovers, Steady, ApplyOp, RunSafe, SafeSince;
    log := new SegmentedLog(fanout);
    n, ok, marks := 0, true, [1];
    SteadyServes(fanout, log.View());
    RunSafeStart(ops, log.history);
    while n < |ops|
      invariant n <= |ops| && ok && log.Valid() && fresh(log)
      invariant Latest(log.dir, log.index) == Meaning(ops[..n]) && Recovers(log.dir, Meaning(ops[..n]))
      invariant RunSafe(ops, n, marks, log.history)
    {
      assert ops[..n + 1][..n] == ops[..n];
      ghost var h := log.history;
      ok := Execute(log, ops[n]);
      RunSafeNext(ops, n, marks, h, log.history);
      marks := marks + [|log.history|];
      n := n + 1;
      if !ok {
        return;
      }
    }
    assert ops[..n] == ops;
  }

  /** What reopening finds after a crash inside operation `i` of a run. */
  lemma CrashRestores(ops: seq<Op>, n: nat, marks: seq<nat>, h: seq<Dir>, i: nat, j: nat, image: Dir, m: nat)
    requires RunSafe(ops, n, marks, h) && i < n && marks[i] <= j < marks[i + 1] && Torn(h, j, image) && forall id :: id in image ==> id < m
    ensures Restores(image, m, Meaning(ops[..i])) || Restores(image, m, Meaning(ops[..i + 1]))
  {
    hide Recovers, Restores, Mixed, Meaning;
    assert Torn(h[..marks[i + 1]], j, image);
    if Recovers(image, Meaning(ops[..i])) {
      RecoversLatest(image, Meaning(ops[..i]), m);
    } else {
      RecoversLatest(image, Meaning(ops[..i + 1]), m);
    }
  }

  lemma RunSafeStart(ops: seq<Op>, h: seq<Dir>)
    requires |h| == 1 && Recovers(h[0], Meaning([]))
    ensures RunSafe(ops, 0, [1], h)
  {
    hide Recovers;
    assert ops[..0] == [];
  }

  lemma RunSafeNext(ops: seq<Op>, n: nat, marks: seq<nat>, h: seq<Dir>, h': seq<Dir>)
    requires n < |ops| && RunSafe(ops, n, marks, h) && h != []
    requires SafeSince(h, h', Meaning(ops[..n]), Meaning(ops[..n + 1])) && Recovers(h'[|h'| - 1], Meaning(ops[..n + 1]))
    ensures RunSafe(ops, n + 1, marks + [|h'|], h')
  {
    hide Recovers, Meaning, Torn;
    var marks' := marks + [|h'|];
    forall i | 0 <= i <= n + 1 ensures 0 < marks'[i] <= |h'| && Recovers(h'[marks'[i] - 1], Meaning(ops[..i])) {
      if i <= n {
        assert h[marks[i] - 1] == h'[marks[i] - 1];
      }
    }
    hide SafeSince;
    forall i | 0 <= i < n + 1
      ensures marks'[i] <= marks'[i + 1]
      ensures SafeSince(h'[..marks'[i]], h'[..marks'[i + 1]], Meaning(ops[..i]), Meaning(ops[..i + 1]))
    {
      if i < n {
        assert h'[..marks[i]] == h[..marks[i]] && h'[..marks[i + 1]] == h[..marks[i + 1]];
      } else {
        assert h'[..marks[n]] == h && h'[..|h'|] == h';
      }
    }
  }

  /** Put and rotate: the key is in a sealed file, whose footer lists it. */
  method PutAndRotate(put: Record) returns (log: SegmentedLog)
    requires put.Fits() && put.IsFull()
    ensures fresh(log) && log.Valid() && log.activeId == 1
    ensures log.index.entries == map[put.key := IndexEntry(0, 0, put.Size(), put.tstamp)] && log.index.At(put.key).ttl == put.Expiry()
    ensures 0 in log.dir && log.dir[0].footer.Some? && Lists(log.dir[0].footer.value, put.key)
    ensures put.key in log.recorded && log.recorded[put.key] == put.Expiry()
  {
    hide Steady, Latest, SafeSince, ServesAll, Lists, Record.IsFull, Record.Fits;
    log := new SegmentedLog(2);
    log.Put(put);
    ghost var idx := log.index;
    assert idx.entries == map[put.key := IndexEntry(0, 0, put.Size(), put.tstamp)];
    var _ := log.RotateActive();
  }

  /** Put, rotate, delete, clean seal: the key is back after reopening. */
  method DeletedKeyReturns(put: Record, bury: Record) returns (log: SegmentedLog)
    requires put.Fits() && put.IsFull() && bury.Fits() && bury.IsTombstone() && bury.key == put.key
    ensures put.key !in log.index.entries && put.key in Reopen(log.dir, log.activeId + 1).entries
  {
    hide Steady, Latest, SafeSince, ServesAll, Lists, Record.IsFull, Record.IsTombstone, Record.Fits, Reopen;
    log := PutAndRotate(put);
    var found := log.Delete(bury);
    log.SealForShutdown();
    SealedDomain(log.dir, log.activeId + 1, put.key);
    assert ListedBelow(log.dir, log.activeId + 1, put.key) by {
      assert 0 in log.dir && Lists(log.dir[0].footer.value, put.key);
    }
  }

  /** Put, rotate, change the expiry, clean seal: the old expiry is back after reopening. */
  method ExpiryForgotten(put: Record, expire: Record) returns (log: SegmentedLog)
    requires put.Fits() && put.IsFull() && expire.Fits() && expire.IsTtlUpdate() && expire.key == put.key
    requires expire.Expiry() != put.Expiry()
    ensures put.key in log.index.entries && log.index.At(put.key).ttl == expire.Expiry()
    ensures Reopen(log.dir, log.activeId + 1).At(put.key).ttl == put.Expiry()
  {
    hide Steady, Latest, SafeSince, ServesAll, Lists, Record.IsFull, Record.IsTtlUpdate, Record.Fits, Reopen, Record.Expiry;
    log := PutAndRotate(put);
    log.UpdateTtl(expire);
    log.SealForShutdown();
  }
}
