/** Scans by key cursor, one page at a time while the map changes in between, over one
    shard or many. */
module Paging {
  import opened Types
  import opened Order
  import opened NamespaceIndex

  /** How far a scan has come: everything on lower shards, and on this shard the keys up to
      `after`. */
  datatype Pos = Pos(shard: nat, after: Option<Bytes>)

  /** One page: the shard's index and clock when it was taken, and what it returned. */
  datatype Visit = Visit(idx: Index, now: U64, count: nat, keys: seq<Bytes>, next: Option<Bytes>)

  function NextPos(at: Pos, next: Option<Bytes>): Pos {
    if next.Some? then Pos(at.shard, next) else Pos(at.shard + 1, None)
  }

  ghost predicate PageAt(v: Visit, at: Pos, filter: Bytes -> bool) {
    IsPage(v.idx, at.after, v.count, v.now, filter, v.keys, v.next)
  }

  /** A completed scan from `at`: each page starts where the last one ended, on whatever the
      index has become since. */
  ghost predicate Completed(vs: seq<Visit>, at: Pos, n: nat, filter: Bytes -> bool)
    decreases |vs|
  {
    if at.shard >= n then vs == []
    else vs != [] && PageAt(vs[0], at, filter) && Completed(vs[1..], NextPos(at, vs[0].next), n, filter)
  }

  function Tagged(shard: nat, keys: seq<Bytes>): (ps: seq<(nat, Bytes)>)
    ensures |ps| == |keys| && forall i :: 0 <= i < |keys| ==> ps[i] == (shard, keys[i])
  {
    seq(|keys|, i requires 0 <= i < |keys| => (shard, keys[i]))
  }

  /** All (shard, key) pairs a scan yields, in order. */
  function Yielded(vs: seq<Visit>, at: Pos): seq<(nat, Bytes)>
    decreases |vs|
  {
    if vs == [] then [] else Tagged(at.shard, vs[0].keys) + Yielded(vs[1..], NextPos(at, vs[0].next))
  }

  /** `k` could be yielded whenever a page of shard `s` was taken. */
  ghost predicate Stable(vs: seq<Visit>, at: Pos, filter: Bytes -> bool, s: nat, k: Bytes)
    decreases |vs|
  {
    vs == [] || ((at.shard == s ==> Eligible(vs[0].idx, vs[0].now, filter, k)) && Stable(vs[1..], NextPos(at, vs[0].next), filter, s, k))
  }

  predicate Before(a: (nat, Bytes), b: (nat, Bytes)) {
    a.0 < b.0 || (a.0 == b.0 && Less(a.1, b.1))
  }

  predicate Past(a: (nat, Bytes), at: Pos) {
    a.0 > at.shard || (a.0 == at.shard && Above(a.1, at.after))
  }

  ghost predicate Increasing(ps: seq<(nat, Bytes)>) {
    forall i, j :: 0 <= i < j < |ps| ==> Before(ps[i], ps[j])
  }

  ghost predicate AllPast(ps: seq<(nat, Bytes)>, at: Pos) {
    forall i :: 0 <= i < |ps| ==> Past(ps[i], at)
  }

  /** One page is increasing, past its cursor, and everything later lies past its end. */
  lemma PageBounds(v: Visit, at: Pos, filter: Bytes -> bool)
    requires PageAt(v, at, filter)
    ensures Increasing(Tagged(at.shard, v.keys)) && AllPast(Tagged(at.shard, v.keys), at)
    ensures forall a: (nat, Bytes), i :: 0 <= i < |v.keys| && Past(a, NextPos(at, v.next)) ==> Before((at.shard, v.keys[i]), a)
    ensures forall a: (nat, Bytes) :: Past(a, NextPos(at, v.next)) ==> Past(a, at)
  {
    forall a: (nat, Bytes), i | 0 <= i < |v.keys| && Past(a, NextPos(at, v.next))
      ensures Before((at.shard, v.keys[i]), a)
    {
      if v.next.Some? && a.0 == at.shard && i < |v.keys| - 1 {
        LessTransitive(v.keys[i], v.next.value, a.1);
      }
    }
    forall a: (nat, Bytes) | Past(a, NextPos(at, v.next)) ensures Past(a, at) {
      if v.next.Some? && a.0 == at.shard && at.after.Some? {
        LessTransitive(at.after.value, v.next.value, a.1);
      }
    }
  }

  lemma AppendIncreasing(xs: seq<(nat, Bytes)>, ys: seq<(nat, Bytes)>)
    requires Increasing(xs) && Increasing(ys)
    requires forall i, j :: 0 <= i < |xs| && 0 <= j < |ys| ==> Before(xs[i], ys[j])
    ensures Increasing(xs + ys)
  {
    hide Before;
  }

  /** Whatever happens to the map, a scan yields in increasing order: nothing twice. */
  lemma {:induction false} ScanIncreasing(vs: seq<Visit>, at: Pos, n: nat, filter: Bytes -> bool)
    requires Completed(vs, at, n, filter)
    ensures Increasing(Yielded(vs, at)) && AllPast(Yielded(vs, at), at)
    decreases |vs|
  {
    hide Before, Past, PageAt, NextPos;
    if vs != [] {
      var next := NextPos(at, vs[0].next);
      ScanIncreasing(vs[1..], next, n, filter);
      PageBounds(vs[0], at, filter);
      AppendIncreasing(Tagged(at.shard, vs[0].keys), Yielded(vs[1..], next));
    }
  }

  /** A page either yields an eligible key past its cursor or leaves it past its end. */
  lemma PageCovers(v: Visit, at: Pos, filter: Bytes -> bool, s: nat, k: Bytes)
    requires PageAt(v, at, filter) && Past((s, k), at)
    requires at.shard == s ==> Eligible(v.idx, v.now, filter, k)
    ensures (s, k) in Tagged(at.shard, v.keys) || Past((s, k), NextPos(at, v.next))
  {
    if s == at.shard && !(v.next.Some? && Less(v.next.value, k)) {
      assert k in v.keys;
      var i :| 0 <= i < |v.keys| && v.keys[i] == k;
      assert Tagged(s, v.keys)[i] == (s, k);
    }
  }

  lemma {:induction false} ScanCovers(vs: seq<Visit>, at: Pos, n: nat, filter: Bytes -> bool, s: nat, k: Bytes)
    requires Completed(vs, at, n, filter) && Stable(vs, at, filter, s, k) && s < n && Past((s, k), at)
    ensures (s, k) in Yielded(vs, at)
    decreases |vs|
  {
    hide PageAt, NextPos, Eligible;
    if vs != [] {
      PageCovers(vs[0], at, filter, s, k);
      if (s, k) !in Tagged(at.shard, vs[0].keys) {
        ScanCovers(vs[1..], NextPos(at, vs[0].next), n, filter, s, k);
      }
    }
  }

  /** Where page `j` of a scan starts. */
  function PosAt(vs: seq<Visit>, at: Pos, j: nat): Pos
    requires j <= |vs|
    decreases |vs|
  {
    if j == 0 then at else PosAt(vs[1..], NextPos(at, vs[0].next), j - 1)
  }

  /** How many keys the pages before page `j` yield. */
  function Start(vs: seq<Visit>, j: nat): nat
    requires j <= |vs|
    decreases |vs|
  {
    if j == 0 then 0 else |vs[0].keys| + Start(vs[1..], j - 1)
  }

  /** What is yielded at place `i` comes from page `j`: a page of that shard, on which the key
      was eligible and past the cursor when the page was taken. */
  ghost predicate FromPage(vs: seq<Visit>, at: Pos, filter: Bytes -> bool, i: nat, y: (nat, Bytes), j: nat)
    requires j < |vs|
  {
    && Start(vs, j) <= i < Start(vs, j) + |vs[j].keys| && vs[j].keys[i - Start(vs, j)] == y.1
    && PosAt(vs, at, j).shard == y.0 && Above(y.1, PosAt(vs, at, j).after)
    && Eligible(vs[j].idx, vs[j].now, filter, y.1)
  }

  /** Everything a scan yields was eligible on its shard at the page that yielded it. */
  lemma {:induction false} ScanSound(vs: seq<Visit>, at: Pos, n: nat, filter: Bytes -> bool, i: nat) returns (j: nat)
    requires Completed(vs, at, n, filter) && i < |Yielded(vs, at)|
    ensures j < |vs| && FromPage(vs, at, filter, i, Yielded(vs, at)[i], j)
    decreases |vs|
  {
    hide Eligible, NextPos;
    var m := |vs[0].keys|;
    if i < m {
      j := 0;
    } else {
      var next := NextPos(at, vs[0].next);
      var j' := ScanSound(vs[1..], next, n, filter, i - m);
      j := j' + 1;
      assert Yielded(vs, at)[i] == Yielded(vs[1..], next)[i - m];
    }
  }

  /** A key of a shard that is present, unexpired and matching at every page of a completed
      scan is yielded exactly once, whatever is inserted and deleted around it. */
  lemma ExactlyOnce(vs: seq<Visit>, n: nat, filter: Bytes -> bool, s: nat, k: Bytes)
    requires Completed(vs, Pos(0, None), n, filter) && Stable(vs, Pos(0, None), filter, s, k) && s < n
    ensures exists i :: 0 <= i < |Yielded(vs, Pos(0, None))| && Yielded(vs, Pos(0, None))[i] == (s, k)
                        && forall j :: 0 <= j < |Yielded(vs, Pos(0, None))| && j != i ==> Yielded(vs, Pos(0, None))[j] != (s, k)
  {
    hide Completed, Stable, Yielded;
    var at := Pos(0, None);
    var ys := Yielded(vs, at);
    ScanCovers(vs, at, n, filter, s, k);
    ScanIncreasing(vs, at, n, filter);
    var i :| 0 <= i < |ys| && ys[i] == (s, k);
    forall j | 0 <= j < |ys| && j != i ensures ys[j] != (s, k) {
      LessTotal(k, k);
      assert Before(ys[i], ys[j]) || Before(ys[j], ys[i]);
    }
  }

  /** Pages of a scan that may still be under way, over shards that do not change. */
  ghost predicate StaticPages(vs: seq<Visit>, at: Pos, idxs: seq<Index>, filter: Bytes -> bool)
    decreases |vs|
  {
    vs == [] || (at.shard < |idxs| && vs[0].idx == idxs[at.shard] && PageAt(vs[0], at, filter)
                 && StaticPages(vs[1..], NextPos(at, vs[0].next), idxs, filter))
  }

  function KeysPast(idx: Index, after: Option<Bytes>): set<Bytes> {
    set k | k in idx.entries && Above(k, after)
  }

  /** An upper bound on the pages left: one per remaining key and one per remaining shard. */
  function Room(idxs: seq<Index>, at: Pos): nat
    decreases |idxs| - at.shard
  {
    if at.shard >= |idxs| then 0
    else |KeysPast(idxs[at.shard], at.after)| + 1 + Room(idxs, Pos(at.shard + 1, None))
  }

  lemma FewerPast(v: Visit, at: Pos, filter: Bytes -> bool)
    requires PageAt(v, at, filter) && v.next.Some?
    ensures |KeysPast(v.idx, v.next)| < |KeysPast(v.idx, at.after)|
  {
    var k := v.next.value;
    assert k in KeysPast(v.idx, at.after) && k !in KeysPast(v.idx, v.next) by { LessTotal(k, k); }
    forall j | j in KeysPast(v.idx, v.next) ensures j in KeysPast(v.idx, at.after) {
      if at.after.Some? {
        LessTransitive(at.after.value, k, j);
      }
    }
    Smaller(KeysPast(v.idx, v.next), KeysPast(v.idx, at.after), k);
  }

  lemma Smaller(a: set<Bytes>, b: set<Bytes>, k: Bytes)
    requires a <= b && k in b && k !in a
    ensures |a| < |b|
  {
    assert b == a + (b - a);
    assert k in b - a;
  }

  /** A scan of shards that do not change takes boundedly many pages. */
  lemma {:induction false} StaticTerminates(vs: seq<Visit>, at: Pos, idxs: seq<Index>, filter: Bytes -> bool)
    requires StaticPages(vs, at, idxs, filter)
    ensures |vs| <= Room(idxs, at)
    decreases |vs|
  {
    hide PageAt, KeysPast;
    if vs != [] {
      StaticTerminates(vs[1..], NextPos(at, vs[0].next), idxs, filter);
      if vs[0].next.Some? {
        FewerPast(vs[0], at, filter);
      }
    }
  }

  const ZERO: Bytes := [48]

  /** A shard's cursor: `0` at the start and at the end, otherwise 1 and the last key. */
  function StoreCursor(after: Option<Bytes>): Bytes {
    if after.None? then ZERO else [1] + after.value
  }

  /** Anything that is not a continuation restarts the scan. */
  function StoreKey(c: Bytes): Option<Bytes> {
    if c != [] && c[0] == 1 then Some(c[1..]) else None
  }

  /** The cursor handed to the client; `0` when every shard is done. One shard uses its own
      cursor, several put 2 and the shard number, cut to a byte, in front of it. */
  function CursorOf(at: Pos, n: nat): Bytes {
    if at.shard >= n then ZERO
    else if n == 1 then StoreCursor(at.after)
    else [2, at.shard % 256] + StoreCursor(at.after)
  }

  function PosOf(c: Bytes, n: nat): Pos {
    if n == 1 then Pos(0, StoreKey(c))
    else if |c| >= 2 && c[0] == 2 then Pos(c[1], StoreKey(c[2..]))
    else Pos(0, None)
  }

  lemma StoreRoundTrip(after: Option<Bytes>)
    ensures StoreKey(StoreCursor(after)) == after
  {
  }

  lemma CursorRoundTrip(at: Pos, n: nat)
    requires at.shard < n
    ensures PosOf(CursorOf(at, n), n) == at.(shard := at.shard % 256)
  {
    StoreRoundTrip(at.after);
    if n > 1 {
      assert CursorOf(at, n)[2..] == StoreCursor(at.after);
    }
  }

  /** Cursors name their place on every shard exactly when there are at most 256 shards. */
  lemma CursorsExact(n: nat)
    ensures (forall at: Pos :: at.shard < n ==> PosOf(CursorOf(at, n), n) == at) <==> n <= 256
  {
    hide CursorOf, PosOf;
    if n <= 256 {
      forall at: Pos | at.shard < n ensures PosOf(CursorOf(at, n), n) == at {
        CursorRoundTrip(at, n);
      }
    } else {
      CursorRoundTrip(Pos(256, None), n);
      assert PosOf(CursorOf(Pos(256, None), n), n).shard == 0;
    }
  }

  /** A completed scan as a client drives it, passing each returned cursor back. */
  ghost predicate Driven(vs: seq<Visit>, c: Bytes, n: nat, filter: Bytes -> bool)
    decreases |vs|
  {
    && vs != [] && PosOf(c, n).shard < n && PageAt(vs[0], PosOf(c, n), filter)
    && var c' := CursorOf(NextPos(PosOf(c, n), vs[0].next), n);
       if c' == ZERO then |vs| == 1 else Driven(vs[1..], c', n, filter)
  }

  lemma {:induction false} DrivenCompletes(vs: seq<Visit>, c: Bytes, n: nat, filter: Bytes -> bool)
    requires 1 <= n <= 256 && Driven(vs, c, n, filter)
    ensures Completed(vs, PosOf(c, n), n, filter)
    decreases |vs|
  {
    hide PageAt;
    var at := PosOf(c, n);
    var next := NextPos(at, vs[0].next);
    if next.shard < n {
      CursorRoundTrip(next, n);
      DrivenCompletes(vs[1..], CursorOf(next, n), n, filter);
    }
  }

  /** With more shards than a byte can name, the cursor comes back to shard 0 before the last
      one is reached: no scan a client drives ever ends. */
  lemma {:induction false} NeverDriven(vs: seq<Visit>, c: Bytes, n: nat, filter: Bytes -> bool)
    requires n > 256
    ensures !Driven(vs, c, n, filter)
    decreases |vs|
  {
    hide PageAt;
    if vs != [] {
      NeverDriven(vs[1..], CursorOf(NextPos(PosOf(c, n), vs[0].next), n), n, filter);
    }
  }

  /** Starting from `0` and following cursors on up to 256 shards is exact. */
  lemma DrivenExact(vs: seq<Visit>, n: nat, filter: Bytes -> bool, s: nat, k: Bytes)
    requires 1 <= n <= 256 && s < n && Driven(vs, ZERO, n, filter) && Stable(vs, Pos(0, None), filter, s, k)
    ensures exists i :: 0 <= i < |Yielded(vs, Pos(0, None))| && Yielded(vs, Pos(0, None))[i] == (s, k)
                        && forall j :: 0 <= j < |Yielded(vs, Pos(0, None))| && j != i ==> Yielded(vs, Pos(0, None))[j] != (s, k)
  {
    hide Driven, Completed, Stable, Yielded;
    DrivenCompletes(vs, ZERO, n, filter);
    ExactlyOnce(vs, n, filter, s, k);
  }

  /** All matching keys of one shard, page by page of 512. */
  method AllKeys(index: NsIndex, now: U64, filter: Bytes -> bool) returns (all: seq<Bytes>)
    ensures Ascending(all)
    ensures forall k :: k in all <==> k in index.entries && !(k in index.ttl && index.ttl[k] <= now) && filter(k)
  {
    forall k ensures Eligible(index.View(), now, filter, k) <==> k in index.entries && !(k in index.ttl && index.ttl[k] <= now) && filter(k) {
    }
    hide Eligible;
    all := [];
    var cursor := ZERO;
    ghost var after: Option<Bytes> := None;
    while true
      invariant StoreKey(cursor) == after
      invariant Ascending(all)
      invariant forall k :: k in all <==> Eligible(index.View(), now, filter, k) && !Above(k, after)
      decreases |KeysPast(index.View(), after)|
    {
      var page, next := index.Scan(StoreKey(cursor), 512, now, filter);
      StoreRoundTrip(next);
      PageJoins(index.View(), after, 512, now, filter, all, page, next);
      all := all + page;
      cursor := StoreCursor(next);
      if cursor == ZERO {
        return;
      }
      FewerPast(Visit(index.View(), now, 512, page, next), Pos(0, after), filter);
      after := next;
    }
  }

  /** A page continues what has been collected up to its cursor. */
  lemma PageJoins(idx: Index, after: Option<Bytes>, count: nat, now: U64, filter: Bytes -> bool, all: seq<Bytes>, page: seq<Bytes>, next: Option<Bytes>)
    requires IsPage(idx, after, count, now, filter, page, next)
    requires Ascending(all) && forall k :: k in all <==> Eligible(idx, now, filter, k) && !Above(k, after)
    ensures Ascending(all + page)
    ensures forall k :: k in all + page <==> Eligible(idx, now, filter, k) && (next.Some? ==> !Above(k, next))
  {
    hide Eligible, Less;
    forall i, j | 0 <= i < |all| && 0 <= j < |page| ensures Less(all[i], page[j]) {
      assert all[i] in all;
      LessTotal(all[i], after.value);
      if Less(all[i], after.value) {
        LessTransitive(all[i], after.value, page[j]);
      }
    }
    forall k ensures k in all + page <==> Eligible(idx, now, filter, k) && (next.Some? ==> !Above(k, next)) {
      Joined(idx, after, count, now, filter, all, page, next, k);
    }
  }

  lemma Joined(idx: Index, after: Option<Bytes>, count: nat, now: U64, filter: Bytes -> bool, all: seq<Bytes>, page: seq<Bytes>, next: Option<Bytes>, k: Bytes)
    requires IsPage(idx, after, count, now, filter, page, next)
    requires forall k :: k in all <==> Eligible(idx, now, filter, k) && !Above(k, after)
    ensures k in all + page <==> Eligible(idx, now, filter, k) && (next.Some? ==> !Above(k, next))
  {
    hide Eligible, Less;
    if next.Some? {
      var last := next.value;
      LessTotal(k, last);
      if k in page {
        var i :| 0 <= i < |page| && page[i] == k;
        assert i == |page| - 1 || Less(k, last);
      }
      if k in all && Less(last, k) {
        LessTransitive(after.value, last, k);
      }
    }
  }
}
