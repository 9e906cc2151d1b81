/** Merging sealed runs: the copied file, the files that replace one another on disk,
    and the tiers that bound how often a record is copied. */
module Merge {
  import opened Types
  import opened Records
  import opened Footer
  import opened NamespaceIndex
  import opened Segments

  /** After copying the keys of `done` into file `n`: each has its record there, a footer
      entry and an index entry for it, with size, revision, expiry and blob kept; no other
      key has changed. */
  ghost predicate Copied(dir: Dir, idx: Index, done: set<Bytes>, n: nat, f: SegFile, idx': Index)
  {
    && f.footer.Some? && AllFit(f.recs)
    && forall k :: if k in done then CopiedKey(dir, idx, n, f, idx', k)
                   else idx'.At(k) == idx.At(k) && !Lists(f.footer.value, k)
  }

  ghost predicate CopiedKey(dir: Dir, idx: Index, n: nat, f: SegFile, idx': Index, k: Bytes)
    requires f.footer.Some?
  {
    && k in idx.entries && k in idx'.entries
    && idx'.At(k) == idx.At(k).(entry := Some(idx'.entries[k]))
    && var e, e' := idx.entries[k], idx'.entries[k];
       && e' == IndexEntry(n, e'.offset, e.size, e.tstamp)
       && RecordAt(f.recs, e'.offset).Some? && RecordAt(f.recs, e'.offset) == RecordOf(dir, e)
       && Lists(f.footer.value, k) && Consistent(f.footer.value, k, e') && ExpiresAt(f.footer.value, k, idx.At(k).ttl)
       && HashesAs(f.footer.value, k, RecordAt(f.recs, e'.offset).value.Blob())
  }

  /** The merged file with one more record and the footer entry for it. */
  function WithCopy(f: SegFile, r: Record, x: FooterEntry): SegFile
    requires f.footer.Some?
  {
    SegFile(f.recs + [r], Some(f.footer.value + [x]))
  }

  lemma ListsSnoc(es: seq<FooterEntry>, x: FooterEntry, k: Bytes)
    ensures Lists(es + [x], k) <==> Lists(es, k) || x.key == k
  {
    assert (es + [x])[|es|] == x;
    if Lists(es, k) {
      var i :| 0 <= i < |es| && es[i].key == k;
      assert (es + [x])[i].key == k;
    }
  }

  lemma CopyOne(dir: Dir, idx: Index, done: set<Bytes>, n: nat, f: SegFile, idx': Index,
                k: Bytes, r: Record, x: FooterEntry)
    requires Copied(dir, idx, done, n, f, idx')
    requires k in idx.entries && k !in done
    requires RecordOf(dir, idx.entries[k]) == Some(r) && r.Fits()
    requires x.key == k && x.offset == TotalSize(f.recs) && x.size == idx.entries[k].size && x.tstamp == idx.entries[k].tstamp
    requires x.expires == idx.At(k).ttl && x.hash == r.Blob()
    ensures var e' := IndexEntry(n, TotalSize(f.recs), idx.entries[k].size, idx.entries[k].tstamp);
            CopiedKey(dir, idx, n, WithCopy(f, r, x), idx'.Insert(k, e', idx.At(k).ttl), k)
  {
    hide Lists;
    ListsSnoc(f.footer.value, x, k);
    RecordAtSnoc(f.recs, r, TotalSize(f.recs));
    NotListed(f.footer.value, k);
  }

  lemma NotListed(es: seq<FooterEntry>, k: Bytes)
    ensures !Lists(es, k) ==> forall i :: 0 <= i < |es| ==> es[i].key != k
  {
  }

  lemma CopyOther(dir: Dir, idx: Index, n: nat, f: SegFile, idx': Index, idx'': Index, r: Record, x: FooterEntry, j: Bytes)
    requires f.footer.Some? && CopiedKey(dir, idx, n, f, idx', j)
    requires x.key != j && idx''.At(j) == idx'.At(j)
    ensures CopiedKey(dir, idx, n, WithCopy(f, r, x), idx'', j)
  {
    hide Lists;
    ListsSnoc(f.footer.value, x, j);
    var e' := idx'.entries[j];
    assert Get(idx''.entries, j) == Some(e');
    RecordAtBound(f.recs, e'.offset);
    RecordAtSnoc(f.recs, r, e'.offset);
  }

  lemma CopyStep(dir: Dir, idx: Index, done: set<Bytes>, n: nat, f: SegFile, idx': Index,
                 k: Bytes, r: Record, x: FooterEntry)
    requires Copied(dir, idx, done, n, f, idx')
    requires k in idx.entries && k !in done
    requires RecordOf(dir, idx.entries[k]) == Some(r) && r.Fits()
    requires x.key == k && x.offset == TotalSize(f.recs) && x.size == idx.entries[k].size && x.tstamp == idx.entries[k].tstamp
    requires x.expires == idx.At(k).ttl && x.hash == r.Blob()
    ensures var e' := IndexEntry(n, TotalSize(f.recs), idx.entries[k].size, idx.entries[k].tstamp);
            Copied(dir, idx, done + {k}, n, WithCopy(f, r, x), idx'.Insert(k, e', idx.At(k).ttl))
  {
    var e' := IndexEntry(n, TotalSize(f.recs), idx.entries[k].size, idx.entries[k].tstamp);
    CopyOne(dir, idx, done, n, f, idx', k, r, x);
    hide CopiedKey, Lists;
    var f' := WithCopy(f, r, x);
    var idx'' := idx'.Insert(k, e', idx.At(k).ttl);
    forall j | j != k
      ensures if j in done then CopiedKey(dir, idx, n, f', idx'', j)
              else idx''.At(j) == idx.At(j) && !Lists(f'.footer.value, j)
    {
      if j in done {
        CopyOther(dir, idx, n, f, idx', idx'', r, x, j);
      } else {
        ListsSnoc(f.footer.value, x, j);
      }
    }
  }

  /** A directory the merge passes through once its output is visible: the output, every
      file that is not an input, and some of the inputs. */
  ghost predicate Swapped(dir: Dir, dir': Dir, ids: set<nat>, n: nat, f: SegFile) {
    && n in dir' && dir'[n] == f
    && (forall id :: id in dir' && id != n ==> id in dir && dir'[id] == dir[id])
    && (forall id :: id in dir && id !in ids ==> id in dir')
    && (forall id :: id in dir ==> id < n)
  }

  ghost predicate CopiesIds(idx: Index, ids: set<nat>, done: set<Bytes>) {
    forall k :: k in done <==> k in idx.entries && idx.entries[k].fileId in ids
  }

  /** Every live key is served by every such directory under the new index, with the record
      it had. */
  lemma MergeServesKey(dir: Dir, idx: Index, ids: set<nat>, done: set<Bytes>, n: nat, f: SegFile, idx': Index, dir': Dir, k: Bytes)
    requires k in idx.entries && Serves(dir, k, idx.entries[k]) && CopiesIds(idx, ids, done)
    requires Copied(dir, idx, done, n, f, idx') && Swapped(dir, dir', ids, n, f)
    ensures k in idx'.entries
    ensures Serves(dir', k, idx'.entries[k])
    ensures RecordOf(dir', idx'.entries[k]) == RecordOf(dir, idx.entries[k])
  {
    hide Lists, Consistent;
    if k !in done {
      assert Get(idx'.entries, k) == Some(idx.entries[k]);
      SwapServes(dir, dir', k, idx.entries[k]);
    }
  }

  lemma MergeServes(dir: Dir, idx: Index, ids: set<nat>, done: set<Bytes>, n: nat, f: SegFile, idx': Index, dir': Dir)
    requires ServesAll(dir, idx) && CopiesIds(idx, ids, done)
    requires Copied(dir, idx, done, n, f, idx') && Swapped(dir, dir', ids, n, f)
    ensures ServesAll(dir', idx')
    ensures Latest(dir', idx') == Latest(dir, idx)
  {
    hide Copied, Swapped, Serves, CopiesIds, RecordOf;
    CopyKeeps(dir, idx, done, n, f, idx');
    forall k | k in idx.entries
      ensures k in idx'.entries && Serves(dir', k, idx'.entries[k])
              && RecordOf(dir', idx'.entries[k]) == RecordOf(dir, idx.entries[k])
    {
      MergeServesKey(dir, idx, ids, done, n, f, idx', dir', k);
    }
  }

  /** Copying keeps what the index says about a key besides its place. */
  lemma CopyKeeps(dir: Dir, idx: Index, done: set<Bytes>, n: nat, f: SegFile, idx': Index)
    requires Copied(dir, idx, done, n, f, idx')
    ensures forall k :: k in idx.entries <==> k in idx'.entries
    ensures forall k :: k in idx.entries ==> idx'.entries[k].tstamp == idx.entries[k].tstamp && idx'.entries[k].size == idx.entries[k].size
    ensures forall k :: k in idx.entries && k !in done ==> idx'.entries[k] == idx.entries[k]
    ensures forall k :: k in done ==> k in idx.entries && idx'.entries[k].fileId == n
    ensures forall k :: idx'.At(k).ttl == idx.At(k).ttl && idx'.At(k).blob == idx.At(k).blob
  {
    hide Lists, Consistent;
    forall k
      ensures k in idx.entries <==> k in idx'.entries
      ensures k in idx.entries && k !in done ==> idx'.entries[k] == idx.entries[k]
      ensures idx'.At(k).ttl == idx.At(k).ttl && idx'.At(k).blob == idx.At(k).blob
    {
      if k !in done {
        assert Get(idx'.entries, k) == Get(idx.entries, k);
      }
    }
  }

  /** `level.get(id).unwrap_or(0)`. */
  function LevelOf(level: map<nat, nat>, id: nat): nat {
    if id in level then level[id] else 0
  }

  /** What each sealed run descends from: disjoint sets of level-0 runs, at least
      fanout^level of them. */
  ghost predicate Tiers(fanout: nat, ids: set<nat>, level: map<nat, nat>, origin: map<nat, set<nat>>, runs: set<nat>) {
    && level.Keys <= ids && origin.Keys == ids
    && (forall id :: id in ids ==> origin[id] <= runs && |origin[id]| >= Pow(fanout, LevelOf(level, id)))
    && (forall a, b :: a in ids && b in ids && a != b ==> origin[a] !! origin[b])
  }

  ghost function UnionOf(origin: map<nat, set<nat>>, ids: set<nat>): set<nat> {
    set id, r | id in ids && id in origin && r in origin[id] :: r
  }

  lemma {:induction false} UnionSize(origin: map<nat, set<nat>>, ids: set<nat>, m: nat)
    requires ids <= origin.Keys
    requires forall id :: id in ids ==> |origin[id]| >= m
    requires forall a, b :: a in ids && b in ids && a != b ==> origin[a] !! origin[b]
    ensures |UnionOf(origin, ids)| >= |ids| * m
    decreases |ids|
  {
    if ids != {} {
      var x :| x in ids;
      var rest := ids - {x};
      UnionSize(origin, rest, m);
      UnionSplit(origin, ids, x);
      assert |ids| == |rest| + 1;
      TimesNext(|rest|, m);
    }
  }

  lemma UnionSplit(origin: map<nat, set<nat>>, ids: set<nat>, x: nat)
    requires ids <= origin.Keys && x in ids
    requires forall a, b :: a in ids && b in ids && a != b ==> origin[a] !! origin[b]
    ensures |UnionOf(origin, ids)| == |UnionOf(origin, ids - {x})| + |origin[x]|
  {
    assert UnionOf(origin, ids) == UnionOf(origin, ids - {x}) + origin[x];
  }

  lemma TimesNext(a: nat, m: nat)
    ensures (a + 1) * m == a * m + m
  {
  }

  lemma TimesMonotone(a: nat, b: nat, m: nat)
    requires a <= b
    ensures a * m <= b * m
  {
  }

  /** A run at level L descends from at least fanout^L level-0 runs, merge after merge. */
  lemma MergeTiers(fanout: nat, all: set<nat>, level: map<nat, nat>, origin: map<nat, set<nat>>, runs: set<nat>,
                   ids: set<nat>, lvl: nat, n: nat)
    requires Tiers(fanout, all, level, origin, runs)
    requires ids <= all && |ids| >= fanout && n !in all
    requires forall id :: id in ids ==> LevelOf(level, id) == lvl
    ensures Tiers(fanout, all - ids + {n}, (level - ids)[n := lvl + 1], (origin - ids)[n := UnionOf(origin, ids)], runs)
  {
    hide Pow;
    var all', level', origin' := all - ids + {n}, (level - ids)[n := lvl + 1], (origin - ids)[n := UnionOf(origin, ids)];
    assert |origin'[n]| >= Pow(fanout, lvl + 1) by {
      UnionSize(origin, ids, Pow(fanout, lvl));
      TimesMonotone(fanout, |ids|, Pow(fanout, lvl));
      PowNext(fanout, lvl);
    }
    forall id | id in all' ensures origin'[id] <= runs && |origin'[id]| >= Pow(fanout, LevelOf(level', id)) {
    }
  }

  lemma PowNext(base: nat, e: nat)
    ensures Pow(base, e + 1) == base * Pow(base, e)
  {
  }

  /** A freshly sealed file is a level-0 run of its own. */
  lemma SealTiers(fanout: nat, all: set<nat>, level: map<nat, nat>, origin: map<nat, set<nat>>, runs: set<nat>, id: nat)
    requires Tiers(fanout, all, level, origin, runs)
    requires id !in all && id !in runs
    ensures Tiers(fanout, all + {id}, level, origin[id := {id}], runs + {id})
  {
    hide Pow;
    assert Pow(fanout, 0) == 1 by { PowZero(fanout); }
  }

  lemma PowZero(base: nat)
    ensures Pow(base, 0) == 1
  {
  }

  lemma {:induction false} PowAtLeast(base: nat, e: nat)
    requires base >= 2
    ensures Pow(base, e) >= Pow(2, e) >= 1
  {
    if e > 0 {
      PowAtLeast(base, e - 1);
      TimesMonotone(2, base, Pow(base, e - 1));
      assert 2 * Pow(2, e - 1) <= 2 * Pow(base, e - 1);
    }
  }

  lemma {:induction false} PowMonotone(base: nat, a: nat, b: nat)
    requires base >= 1 && a <= b
    ensures Pow(base, a) <= Pow(base, b)
    decreases b
  {
    if a < b {
      PowMonotone(base, a, b - 1);
      TimesMonotone(1, base, Pow(base, b - 1));
    }
  }

  lemma {:induction false} IdsBelow(ids: set<nat>, n: nat)
    requires forall id :: id in ids ==> id < n
    ensures |ids| <= n
  {
    if n == 0 {
      assert ids == {};
    } else {
      IdsBelow(ids - {n - 1}, n - 1);
    }
  }

  lemma {:induction false} SubsetSize(a: set<nat>, b: set<nat>)
    requires a <= b
    ensures |a| <= |b|
    decreases |a|
  {
    if a != {} {
      var x :| x in a;
      SubsetSize(a - {x}, b - {x});
    }
  }

  /** With 32-bit file ids no run climbs past level 32, so the 8-bit level never saturates. */
  lemma LevelBound(fanout: nat, ids: set<nat>, level: map<nat, nat>, origin: map<nat, set<nat>>, runs: set<nat>, id: nat)
    requires fanout >= 2 && Tiers(fanout, ids, level, origin, runs) && id in ids
    requires forall r :: r in runs ==> r <= U32_MAX
    ensures Pow(fanout, LevelOf(level, id)) <= |runs|
    ensures LevelOf(level, id) <= 32
  {
    var lvl := LevelOf(level, id);
    SubsetSize(origin[id], runs);
    IdsBelow(runs, U32_MAX + 1);
    if lvl > 32 {
      PowAtLeast(fanout, lvl);
      PowMonotone(2, 33, lvl);
      Pow33();
      assert false;
    }
  }

  lemma Pow33()
    ensures Pow(2, 33) == 2 * (U32_MAX + 1)
  {
    assert Pow(2, 8) == 256;
    assert Pow(2, 16) == 65536;
    assert Pow(2, 24) == 0x100_0000;
    assert Pow(2, 33) == 0x2_0000_0000;
  }
}
