/** The shard store: namespaces of logged items behind one cache. `Db` is what a namespace's
    log holds when operations are atomic; the specification never looks at the cache. */
module Store {
  import opened Types
  import opened Cache
  import LogMachine

  type Condition = LogMachine.Condition

  const U64_MAX: nat := 0xffff_ffff_ffff_ffff

  /** The live items of a namespace log and the last revision it issued. */
  datatype Db = Db(items: map<Bytes, Item>, last: nat)

  type Dbs = map<Bytes, Db>

  function DbOf(dbs: Dbs, ns: Bytes): Db {
    if ns in dbs then dbs[ns] else Db(map[], 0)
  }

  /** `next_tstamp`. */
  function Stamp(db: Db, clock: nat): nat {
    NextStamp(db.last, clock)
  }

  function PutIn(db: Db, k: Bytes, value: Bytes, expires: Option<U64>, meta: Option<Bytes>, clock: nat): Db {
    Db(db.items[k := Item(value, expires, meta, Stamp(db, clock))], Stamp(db, clock))
  }

  function Bury(db: Db, k: Bytes, clock: nat): Db {
    if k in db.items then Db(db.items - {k}, Stamp(db, clock)) else db
  }

  /** A TTL update keeps the item's own revision. */
  function Retime(db: Db, k: Bytes, expires: Option<U64>, clock: nat): Db {
    Db(if k in db.items then db.items[k := db.items[k].(expires := expires)] else db.items, Stamp(db, clock))
  }

  predicate Expired(db: Db, k: Bytes, now: U64) {
    k in db.items && db.items[k].Expired(now)
  }

  function Live(db: Db, k: Bytes, now: U64): Option<Item> {
    if k in db.items && !Expired(db, k, now) then Some(db.items[k]) else None
  }

  /** Reading an expired key deletes it. */
  function Touch(db: Db, k: Bytes, now: U64, clock: nat): Db {
    if Expired(db, k, now) then Bury(db, k, clock) else db
  }

  /** The bytes of a namespace name: letters, digits, `_` and `-`. */
  predicate NameByte(b: Byte) {
    48 <= b <= 57 || 65 <= b <= 90 || 97 <= b <= 122 || b == 95 || b == 45
  }

  predicate ValidNs(ns: Bytes) {
    1 <= |ns| <= 64 && forall i :: 0 <= i < |ns| ==> NameByte(ns[i])
  }

  /** `ns\0key`. */
  function CacheKey(ns: Bytes, k: Bytes): Bytes {
    ns + [0] + k
  }

  /** No two (namespace, key) pairs share a composite key, and a composite key starts with
      `ns\0` exactly when it belongs to `ns`. */
  lemma CacheKeyInjective(ns: Bytes, k: Bytes, ns': Bytes, k': Bytes)
    requires ValidNs(ns) && ValidNs(ns')
    ensures CacheKey(ns, k) == CacheKey(ns', k') <==> ns == ns' && k == k'
    ensures ns + [0] <= CacheKey(ns', k') <==> ns == ns'
  {
    var c, c' := CacheKey(ns, k), CacheKey(ns', k');
    assert c[|ns|] == 0 && c'[|ns'|] == 0;
    assert forall i :: 0 <= i < |ns| ==> c[i] == ns[i] && c[i] != 0;
    assert forall i :: 0 <= i < |ns'| ==> c'[i] == ns'[i] && c'[i] != 0;
    assert c[|ns| + 1..] == k && c'[|ns'| + 1..] == k';
    if ns + [0] <= c' {
      assert c'[..|ns| + 1] == ns + [0];
      assert (ns + [0])[|ns|] == 0;
      assert |ns'| == |ns|;
      assert c'[..|ns|] == ns';
    }
    if ns == ns' {
      assert c'[..|ns| + 1] == ns + [0];
    }
    if c == c' {
      assert |ns| == |ns'|;
      assert c[..|ns|] == ns && c'[..|ns'|] == ns';
    }
  }

  /** Every cached item is the logged item of its key. */
  ghost predicate Coherent(m: Entries, dbs: Dbs) {
    forall ns, k :: ValidNs(ns) && CacheKey(ns, k) in m ==> Holds(m, dbs, ns, k)
  }

  predicate Holds(m: Entries, dbs: Dbs, ns: Bytes, k: Bytes)
    requires CacheKey(ns, k) in m
  {
    k in DbOf(dbs, ns).items && m[CacheKey(ns, k)].item == DbOf(dbs, ns).items[k]
  }

  /** Entries may leave the cache at any time. */
  lemma CoherentWithin(m: Entries, m': Entries, dbs: Dbs)
    requires Coherent(m, dbs) && Within(m', m)
    ensures Coherent(m', dbs)
  {
    hide ValidNs, CacheKey;
    forall ns, k | ValidNs(ns) && CacheKey(ns, k) in m' ensures Holds(m', dbs, ns, k) {
      assert Holds(m, dbs, ns, k);
    }
  }

  /** One key of one namespace changes in the log; its cached copy is gone or is the new item. */
  ghost predicate Follows(m: Entries, m': Entries, db: Db, db': Db, ns: Bytes, k: Bytes) {
    && (forall c :: c in m' && c != CacheKey(ns, k) ==> c in m && m'[c].item == m[c].item)
    && (forall j :: j != k ==> Get(db'.items, j) == Get(db.items, j))
    && (CacheKey(ns, k) in m' ==> k in db'.items && m'[CacheKey(ns, k)].item == db'.items[k])
  }

  lemma CoherentFollows(m: Entries, m': Entries, dbs: Dbs, ns: Bytes, k: Bytes, db': Db)
    requires Coherent(m, dbs) && ValidNs(ns) && Follows(m, m', DbOf(dbs, ns), db', ns, k)
    ensures Coherent(m', dbs[ns := db'])
  {
    hide ValidNs, CacheKey;
    forall ns2, j | ValidNs(ns2) && CacheKey(ns2, j) in m' ensures Holds(m', dbs[ns := db'], ns2, j) {
      CacheKeyInjective(ns, k, ns2, j);
      if CacheKey(ns2, j) != CacheKey(ns, k) {
        assert Holds(m, dbs, ns2, j);
        if ns2 == ns {
          assert Get(db'.items, j) == Get(DbOf(dbs, ns).items, j);
        }
      }
    }
  }

  /** A whole namespace changes in the log; none of it is cached any more. */
  lemma CoherentFlush(m: Entries, m': Entries, dbs: Dbs, ns: Bytes, db': Db)
    requires Coherent(m, dbs) && ValidNs(ns)
    requires m' == map c | c in m && !(ns + [0] <= c) :: m[c]
    ensures Coherent(m', dbs[ns := db'])
    ensures forall ns2, k :: ValidNs(ns2) ==> (CacheKey(ns2, k) in m' <==> CacheKey(ns2, k) in m && ns2 != ns)
  {
    hide ValidNs, CacheKey;
    forall ns2, k | ValidNs(ns2) ensures CacheKey(ns2, k) in m' <==> CacheKey(ns2, k) in m && ns2 != ns {
      CacheKeyInjective(ns, k, ns2, k);
    }
    forall ns2, k | ValidNs(ns2) && CacheKey(ns2, k) in m' ensures Holds(m', dbs[ns := db'], ns2, k) {
      assert Holds(m, dbs, ns2, k);
    }
  }

  datatype Ttl = NoTtl | KeepTtl | ForMs(ms: nat)

  predicate Met(cond: Condition, live: Option<Item>) {
    match cond
    case KeyAbsent => live.None?
    case KeyPresent => live.Some?
    case Revision(rev) => live.Some? && live.value.revision == rev
  }

  /** `validate_ttl`: the absolute expiry, unless it overflows. */
  function Deadline(now: U64, ms: nat): Option<U64> {
    if now + ms <= U64_MAX then Some(now + ms) else None
  }

  /** The expiry a write gives its key; `None` when the TTL is rejected. */
  function Expiry(db: Db, k: Bytes, ttl: Ttl, now: U64): Option<Option<U64>> {
    match ttl
    case NoTtl => Some(None)
    case KeepTtl => Some(if k in db.items then db.items[k].expires else None)
    case ForMs(ms) => var at := Deadline(now, ms); if at.Some? then Some(at) else None
  }

  function TouchAll(db: Db, ks: seq<Bytes>, now: U64, clock: nat -> nat): Db {
    if ks == [] then db
    else Touch(TouchAll(db, ks[..|ks| - 1], now, clock), ks[|ks| - 1], now, clock(|ks| - 1))
  }

  function PutAll(db: Db, pairs: seq<(Bytes, Bytes)>, clock: nat -> nat): Db {
    if pairs == [] then db
    else var p := pairs[|pairs| - 1];
         PutIn(PutAll(db, pairs[..|pairs| - 1], clock), p.0, p.1, None, None, clock(|pairs| - 1))
  }

  function BuryAll(db: Db, ks: seq<Bytes>, clock: nat -> nat): Db {
    if ks == [] then db
    else Bury(BuryAll(db, ks[..|ks| - 1], clock), ks[|ks| - 1], clock(|ks| - 1))
  }

  function LiveKeys(db: Db, ks: seq<Bytes>, now: U64): set<Bytes> {
    set k | k in ks && Live(db, k, now).Some?
  }

  function LiveCount(db: Db, ks: seq<Bytes>, now: U64): nat {
    if ks == [] then 0
    else LiveCount(db, ks[..|ks| - 1], now) + if Live(db, ks[|ks| - 1], now).Some? then 1 else 0
  }

  datatype Command =
    | GetCmd(k: Bytes)
    | MGetCmd(ks: seq<Bytes>)
    | SetCmd(k: Bytes, value: Bytes, meta: Option<Bytes>, ttl: Ttl)
    | MSetCmd(pairs: seq<(Bytes, Bytes)>)
    | DelCmd(ks: seq<Bytes>)
    | ExistsCmd(ks: seq<Bytes>)
    | ExpireCmd(k: Bytes, ms: nat)
    | PersistCmd(k: Bytes)
    | GetExCmd(k: Bytes, ttl: Ttl)
    | TtlCmd(k: Bytes)
    | GetSetCmd(k: Bytes, value: Bytes)
    | GetDelCmd(k: Bytes)
    | SetIfCmd(k: Bytes, value: Bytes, meta: Option<Bytes>, ttl: Ttl, cond: Condition)
    | DelRevCmd(k: Bytes, rev: U64)
    | IncrCmd(k: Bytes, delta: int)
    | FlushCmd
    | ReclaimCmd
    | SweepCmd

  datatype Reply =
    | Found(item: Option<Item>)
    | FoundAll(items: seq<Option<Item>>)
    | Flag(b: bool)
    | Count(n: nat)
    | Number(i: int)
    | Wrote(rev: Option<nat>)
    | Left(ms: Option<Option<nat>>)
    | Done
    | BadTtl | NotAnInteger | Overflow | BadNamespace

  /** The value a counter holds: a missing key counts as zero. */
  function Counter(codec: Codec, live: Option<Item>): Option<int> {
    if live.None? then Some(0)
    else var n := codec.parse(live.value.value); if n.Some? && InI64(n.value) then n else None
  }

  /** A write, with or without a condition; `setrev` does not honour `KeepTtl`. */
  function SetStep(db: Db, k: Bytes, v: Bytes, meta: Option<Bytes>, ttl: Ttl, cond: Option<Condition>, now: U64, clock: nat): (Db, Reply) {
    var at := Expiry(db, k, if cond.Some? && cond.value.Revision? && ttl.KeepTtl? then NoTtl else ttl, now);
    if at.None? then (db, BadTtl)
    else if cond.Some? && !Met(cond.value, Live(db, k, now)) then (db, Wrote(None))
    else (PutIn(db, k, v, at.value, meta, clock), if cond.Some? then Wrote(Some(Stamp(db, clock))) else Done)
  }

  function IncrStep(db: Db, k: Bytes, delta: int, now: U64, clock: nat -> nat, codec: Codec): (Db, Reply) {
    var live, db1 := Live(db, k, now), Touch(db, k, now, clock(0));
    var n := Counter(codec, live);
    if n.None? then (db1, NotAnInteger)
    else if !InI64(n.value + delta) then (db1, Overflow)
    else (PutIn(db1, k, codec.render(n.value + delta), if live.Some? then live.value.expires else None, None, clock(1)),
          Number(n.value + delta))
  }

  /** What a command does to a namespace and what it replies, with no cache anywhere. */
  function Step(db: Db, c: Command, now: U64, clock: nat -> nat, codec: Codec): (Db, Reply) {
    match c
    case GetCmd(k) => (Touch(db, k, now, clock(0)), Found(Live(db, k, now)))
    case MGetCmd(ks) =>
      (TouchAll(db, ks, now, clock), FoundAll(seq(|ks|, i requires 0 <= i < |ks| => Live(db, ks[i], now))))
    case SetCmd(k, v, meta, ttl) => SetStep(db, k, v, meta, ttl, None, now, clock(0))
    case MSetCmd(pairs) => (PutAll(db, pairs, clock), Done)
    case DelCmd(ks) => (BuryAll(db, ks, clock), Count(|LiveKeys(db, ks, now)|))
    case ExistsCmd(ks) => (db, Count(LiveCount(db, ks, now)))
    case ExpireCmd(k, ms) =>
      if Live(db, k, now).None? then (db, Flag(false))
      else if Deadline(now, ms).None? then (db, BadTtl)
      else (Retime(db, k, Deadline(now, ms), clock(0)), Flag(true))
    case PersistCmd(k) =>
      var live := Live(db, k, now);
      if live.None? || live.value.expires.None? then (db, Flag(false))
      else (Retime(db, k, None, clock(0)), Flag(true))
    case GetExCmd(k, ttl) =>
      var live := Live(db, k, now);
      if ttl.KeepTtl? || live.None? then (Touch(db, k, now, clock(0)), Found(live))
      else if ttl.ForMs? && Deadline(now, ttl.ms).None? then (db, BadTtl)
      else (Retime(db, k, if ttl.ForMs? then Deadline(now, ttl.ms) else None, clock(0)), Found(live))
    case TtlCmd(k) =>
      var live := Live(db, k, now);
      (Touch(db, k, now, clock(0)),
       Left(if live.None? then None else Some(if live.value.expires.None? then None else Some(live.value.expires.value - now))))
    case GetSetCmd(k, v) =>
      (PutIn(Touch(db, k, now, clock(0)), k, v, None, None, clock(1)), Found(Live(db, k, now)))
    case GetDelCmd(k) =>
      (Bury(Touch(db, k, now, clock(0)), k, clock(1)), Found(Live(db, k, now)))
    case SetIfCmd(k, v, meta, ttl, cond) => SetStep(db, k, v, meta, ttl, Some(cond), now, clock(0))
    case DelRevCmd(k, rev) =>
      if Met(LogMachine.Revision(rev), Live(db, k, now)) then (Bury(db, k, clock(0)), Wrote(Some(Stamp(db, clock(0))))) else (db, Wrote(None))
    case IncrCmd(k, delta) => IncrStep(db, k, delta, now, clock, codec)
    case FlushCmd => (Db(map[], Stamp(db, clock(0))), Done)
    case ReclaimCmd => (db, Done)
    case SweepCmd => (db, Done)
  }

  function MetaLen(meta: Option<Bytes>): nat {
    if meta.Some? then |meta.value| else 0
  }

  /** The bytes of all cached keys, values and metadata. */
  ghost function HeldBytes(m: Entries): nat {
    if m == map[] then 0 else var c :| c in m; |c| + |m[c].item.value| + MetaLen(m[c].item.meta) + HeldBytes(m - {c})
  }

  /** Every entry is charged for its metadata as well. */
  ghost predicate MetaCharged(m: Entries) {
    forall c :: c in m ==> m[c].size >= |c| + |m[c].item.value| + MetaLen(m[c].item.meta)
  }

  lemma {:induction false} HeldBound(m: Entries)
    requires MetaCharged(m)
    ensures HeldBytes(m) <= SizeOf(m)
    decreases |m|
  {
    if m != map[] {
      var c :| c in m && HeldBytes(m) == |c| + |m[c].item.value| + MetaLen(m[c].item.meta) + HeldBytes(m - {c});
      HeldBound(m - {c});
      SizeRemove(m, c);
    }
  }

  /** One more item fits without eviction. */
  ghost predicate Room(cache: MemCache, ns: Bytes, k: Bytes, item: Item)
    reads cache
  {
    cache.currentBytes + |ns| + 1 + |k| + |item.value| + MetaLen(item.meta) <= cache.maxBytes
  }

  lemma CompositeLength(ns: Bytes, k: Bytes)
    ensures |CacheKey(ns, k)| == |ns| + 1 + |k|
  {
  }

  ghost predicate Budgeted(cache: MemCache)
    reads cache
  {
    MetaCharged(cache.entries) && cache.currentBytes <= cache.maxBytes
  }

  /** The store as the source has it, with its cache. */
  class ShardStore {
    const cache: MemCache
    var dbs: Dbs

    ghost predicate Valid()
      reads this, cache
    {
      cache.Valid() && Coherent(cache.entries, dbs) && Budgeted(cache)
    }

    constructor (maxBytes: nat, dbs: Dbs)
      ensures Valid() && this.dbs == dbs && fresh(cache) && cache.maxBytes == maxBytes
    {
      cache := new MemCache(maxBytes);
      this.dbs := dbs;
    }

    /** Cache an item that is in the log. */
    method Populate(ns: Bytes, k: Bytes, item: Item)
      requires Valid() && ValidNs(ns) && Get(DbOf(dbs, ns).items, k) == Some(item)
      modifies cache
      ensures Valid()
      ensures old(Room(cache, ns, k, item)) ==> CacheKey(ns, k) in cache.entries
    {
      hide ValidNs, CacheKey, BytesOf, SizeOf, HeldBytes;
      CompositeLength(ns, k);
      ghost var m, db := cache.entries, DbOf(dbs, ns);
      cache.Insert(CacheKey(ns, k), item, MetaLen(item.meta));
      CoherentFollows(m, cache.entries, dbs, ns, k, db);
    }

    /** Overwrite the cached copy if there is one, insert one otherwise. The cache was in step
        with `before` and is then in step with the write of `item`. */
    method UpsertCache(ns: Bytes, k: Bytes, item: Item, ghost before: Dbs, ghost db': Db)
      requires cache.Valid() && Coherent(cache.entries, before) && Budgeted(cache)
      requires ValidNs(ns) && Changes(DbOf(before, ns), db', k) && Get(db'.items, k) == Some(item)
      modifies cache
      ensures cache.Valid() && Coherent(cache.entries, before[ns := db']) && Budgeted(cache)
      ensures old(Room(cache, ns, k, item)) ==> CacheKey(ns, k) in cache.entries
    {
      hide ValidNs, CacheKey, BytesOf, SizeOf, HeldBytes;
      CompositeLength(ns, k);
      ghost var m := cache.entries;
      var updated := cache.TryUpdate(CacheKey(ns, k), item, MetaLen(item.meta));
      if !updated {
        cache.Insert(CacheKey(ns, k), item, MetaLen(item.meta));
      }
      CoherentFollows(m, cache.entries, before, ns, k, db');
    }

    /** Write one key to the log, then to the cache. */
    method Write(ns: Bytes, k: Bytes, value: Bytes, expires: Option<U64>, meta: Option<Bytes>, clock: nat)
      requires Valid() && ValidNs(ns)
      modifies this, cache
      ensures Valid() && dbs == old(dbs)[ns := PutIn(old(DbOf(dbs, ns)), k, value, expires, meta, clock)]
      ensures old(Room(cache, ns, k, Item(value, expires, meta, 0))) ==> CacheKey(ns, k) in cache.entries
    {
      hide ValidNs, CacheKey, Coherent;
      ghost var before := dbs;
      dbs := dbs[ns := PutIn(DbOf(dbs, ns), k, value, expires, meta, clock)];
      UpsertCache(ns, k, dbs[ns].items[k], before, dbs[ns]);
    }

    /** A change to the log of one key whose cached copy is dropped. */
    method Evict(ns: Bytes, k: Bytes, db': Db)
      requires Valid() && ValidNs(ns) && Changes(DbOf(dbs, ns), db', k)
      modifies this, cache
      ensures Valid() && dbs == old(dbs)[ns := db'] && Within(cache.entries, old(cache.entries))
    {
      hide ValidNs, CacheKey, BytesOf, SizeOf, HeldBytes;
      ghost var m := cache.entries;
      cache.Remove(CacheKey(ns, k));
      CoherentFollows(m, cache.entries, dbs, ns, k, db');
      dbs := dbs[ns := db'];
    }

    /** `get` and `get_inline`: the cache first, then the index, then the record. Only `get`
        puts what it read into the cache. */
    method Read(ns: Bytes, k: Bytes, now: U64, clock: nat, populate: bool) returns (r: Option<Item>)
      requires Valid() && ValidNs(ns)
      modifies this, cache
      ensures Valid() && r == Live(old(DbOf(dbs, ns)), k, now)
      ensures dbs == old(dbs)[ns := Touch(old(DbOf(dbs, ns)), k, now, clock)]
      ensures populate && r.Some? && old(Room(cache, ns, k, Live(DbOf(dbs, ns), k, now).value)) ==> CacheKey(ns, k) in cache.entries
      ensures !populate ==> Within(cache.entries, old(cache.entries))
    {
      hide ValidNs, CacheKey, BytesOf, SizeOf, HeldBytes;
      ghost var m := cache.entries;
      var db := DbOf(dbs, ns);
      assert CacheKey(ns, k) in m ==> Holds(m, dbs, ns, k);
      r := cache.Lookup(CacheKey(ns, k), now);
      CoherentWithin(m, cache.entries, dbs);
      SameDb(cache.entries, dbs, ns);
      dbs := dbs[ns := db];
      if r.Some? {
        return;
      }
      if k !in db.items {
        return;
      }
      if db.items[k].Expired(now) {
        Evict(ns, k, Bury(db, k, clock));
        return;
      }
      r := Some(db.items[k]);
      if populate {
        Populate(ns, k, db.items[k]);
      }
    }
  
    method MSet(ns: Bytes, pairs: seq<(Bytes, Bytes)>, clock: nat -> nat)
      requires Valid() && ValidNs(ns)
      modifies this, cache
      ensures Valid() && dbs == old(dbs)[ns := PutAll(old(DbOf(dbs, ns)), pairs, clock)]
    {
      hide ValidNs, CacheKey, Coherent, PutIn, DbOf;
      ghost var before := dbs;
      var db := DbOf(dbs, ns);
      StartBatch(cache.entries, before, ns);
      dbs := dbs[ns := PutAll(db, pairs, clock)];
      for i := 0 to |pairs|
        invariant cache.Valid() && Coherent(cache.entries, before[ns := PutAll(db, pairs[..i], clock)]) && Budgeted(cache)
        invariant dbs == old(dbs)[ns := PutAll(db, pairs, clock)]
      {
        ghost var db1, db2 := PutAll(db, pairs[..i], clock), PutAll(db, pairs[..i + 1], clock);
        PutNext(db, pairs, clock, i);
        PutRevision(db, pairs, clock, i);
        var item := Item(pairs[i].1, None, None, RevisionAt(db, pairs, clock, i));
        NsOf(before, ns, db1);
        UpsertCache(ns, pairs[i].0, item, before[ns := db1], db2);
        assert before[ns := db1][ns := db2] == before[ns := db2];
      }
      assert pairs[..|pairs|] == pairs;
    }

    /** First pass of a bulk read: hits are filled in, live misses and expired keys noted. */
    method LookupAll(ns: Bytes, ks: seq<Bytes>, now: U64, clock: nat -> nat)
      returns (results: seq<Option<Item>>, misses: seq<nat>, expired: seq<nat>)
      requires Valid() && ValidNs(ns)
      modifies cache
      ensures Valid() && |results| == |ks| && Within(cache.entries, old(cache.entries))
      ensures var db := DbOf(dbs, ns);
              && (forall i :: 0 <= i < |ks| ==> results[i] == Live(db, ks[i], now) || i in misses)
              && Positions(misses, ks) && (forall i :: 0 <= i < |misses| ==> Live(db, ks[misses[i]], now).Some?)
              && Positions(expired, ks) && (forall i :: 0 <= i < |expired| ==> CacheKey(ns, ks[expired[i]]) !in cache.entries)
              && BuryAt(db, ks, expired, clock) == TouchAll(db, ks, now, clock)
    {
      hide ValidNs, CacheKey, Coherent, DbOf, BuryAt, TouchAll, Live, Expired;
      var db := DbOf(dbs, ns);
      results, misses, expired := [], [], [];
      StartTouch(db, ks, now, clock);
      for i := 0 to |ks|
        invariant Valid() && |results| == i && Within(cache.entries, old(cache.entries))
        invariant forall j :: 0 <= j < i ==> results[j] == Live(db, ks[j], now) || j in misses
        invariant Positions(misses, ks) && forall j :: 0 <= j < |misses| ==> Live(db, ks[misses[j]], now).Some?
        invariant Positions(expired, ks) && forall j :: 0 <= j < |expired| ==> CacheKey(ns, ks[expired[j]]) !in cache.entries
        invariant BuryAt(db, ks, expired, clock) == TouchAll(db, ks[..i], now, clock)
      {
        TouchNext(db, ks, now, clock, i, expired);
        LiveCases(db, ks[i], now);
        var hit := LookupOne(ns, ks[i], now);
        if hit.Some? {
          results := results + [hit];
        } else {
          results := results + [None];
          if ks[i] in db.items {
            if db.items[ks[i]].Expired(now) {
              expired := expired + [i];
            } else {
              misses := misses + [i];
            }
          }
        }
      }
      assert ks[..|ks|] == ks;
    }

    /** One cache lookup: a hit is the live item, and what has expired is no longer cached. */
    method LookupOne(ns: Bytes, k: Bytes, now: U64) returns (r: Option<Item>)
      requires Valid() && ValidNs(ns)
      modifies cache
      ensures Valid() && Within(cache.entries, old(cache.entries))
      ensures r.Some? ==> r == Live(DbOf(dbs, ns), k, now)
      ensures Expired(DbOf(dbs, ns), k, now) ==> CacheKey(ns, k) !in cache.entries
      ensures r.None? && Live(DbOf(dbs, ns), k, now).None? ==> CacheKey(ns, k) !in cache.entries
    {
      hide ValidNs, CacheKey;
      ghost var m := cache.entries;
      assert CacheKey(ns, k) in m ==> Holds(m, dbs, ns, k);
      r := cache.Lookup(CacheKey(ns, k), now);
      CoherentWithin(m, cache.entries, dbs);
      assert CacheKey(ns, k) in cache.entries ==> CacheKey(ns, k) in cache.Items();
    }

    /** Tombstone the expired keys of a bulk read. */
    method BuryExpired(ns: Bytes, ks: seq<Bytes>, expired: seq<nat>, clock: nat -> nat)
      requires Valid() && ValidNs(ns)
      requires Positions(expired, ks) && forall i :: 0 <= i < |expired| ==> CacheKey(ns, ks[expired[i]]) !in cache.entries
      modifies this
      ensures Valid() && dbs == old(dbs)[ns := BuryAt(old(DbOf(dbs, ns)), ks, expired, clock)]
    {
      hide ValidNs, CacheKey, Coherent, DbOf, Bury;
      var db := DbOf(dbs, ns);
      SameDb(cache.entries, dbs, ns);
      dbs := dbs[ns := db];
      for i := 0 to |expired|
        invariant dbs == old(dbs)[ns := BuryAt(db, ks, expired[..i], clock)] && Coherent(cache.entries, dbs)
      {
        var p := expired[i];
        BuryNext(db, ks, expired, clock, i);
        ghost var db1 := BuryAt(db, ks, expired[..i], clock);
        NsOf(old(dbs), ns, db1);
        UncachedBury(cache.entries, dbs, ns, ks[p], clock(p));
        dbs := dbs[ns := Bury(DbOf(dbs, ns), ks[p], clock(p))];
      }
      assert expired[..|expired|] == expired;
    }

    /** Second pass: read the misses from the log and cache them. */
    method ReadMisses(ns: Bytes, ks: seq<Bytes>, misses: seq<nat>, hits: seq<Option<Item>>) returns (results: seq<Option<Item>>)
      requires Valid() && ValidNs(ns) && |hits| == |ks|
      requires Positions(misses, ks) && forall i :: 0 <= i < |misses| ==> ks[misses[i]] in DbOf(dbs, ns).items
      modifies cache
      ensures Valid() && |results| == |ks|
      ensures forall i :: 0 <= i < |ks| ==> results[i] == if i in misses then Get(DbOf(dbs, ns).items, ks[i]) else hits[i]
    {
      hide ValidNs, CacheKey, Coherent, DbOf;
      results := hits;
      for i := 0 to |misses|
        invariant Valid() && |results| == |ks|
        invariant forall j :: 0 <= j < |ks| ==> results[j] == if j in misses[..i] then Get(DbOf(dbs, ns).items, ks[j]) else hits[j]
      {
        var p := misses[i];
        var item := DbOf(dbs, ns).items[ks[p]];
        Populate(ns, ks[p], item);
        results := results[p := Some(item)];
        assert misses[..i + 1] == misses[..i] + [p];
      }
      assert misses[..|misses|] == misses;
    }

    method MGet(ns: Bytes, ks: seq<Bytes>, now: U64, clock: nat -> nat) returns (results: seq<Option<Item>>)
      requires Valid() && ValidNs(ns)
      modifies this, cache
      ensures Valid() && dbs == old(dbs)[ns := TouchAll(old(DbOf(dbs, ns)), ks, now, clock)]
      ensures |results| == |ks| && forall i :: 0 <= i < |ks| ==> results[i] == Live(old(DbOf(dbs, ns)), ks[i], now)
    {
      hide ValidNs, CacheKey, DbOf, Coherent, TouchAll, BuryAt;
      var db := DbOf(dbs, ns);
      SameDb(cache.entries, dbs, ns);
      dbs := dbs[ns := db];
      NsOf(old(dbs), ns, db);
      var misses, expired;
      results, misses, expired := LookupAll(ns, ks, now, clock);
      BuryExpired(ns, ks, expired, clock);
      assert dbs == old(dbs)[ns := TouchAll(db, ks, now, clock)];
      NsOf(old(dbs), ns, TouchAll(db, ks, now, clock));
      TouchKeepsLive(db, ks, now, clock);
      results := ReadMisses(ns, ks, misses, results);
    }
  
    /** Tombstone each key in turn; say which were there. */
    method BuryEach(ns: Bytes, ks: seq<Bytes>, clock: nat -> nat) returns (buried: seq<bool>)
      modifies this
      ensures dbs == old(dbs)[ns := BuryAll(old(DbOf(dbs, ns)), ks, clock)]
      ensures |buried| == |ks|
      ensures forall i :: 0 <= i < |ks| ==> buried[i] == (ks[i] in old(DbOf(dbs, ns)).items && ks[i] !in ks[..i])
    {
      hide DbOf, Bury, BuryAll;
      var db := DbOf(dbs, ns);
      buried := [];
      dbs := dbs[ns := db];
      BuryNone(db, clock);
      for i := 0 to |ks|
        invariant dbs == old(dbs)[ns := BuryAll(db, ks[..i], clock)] && |buried| == i
        invariant forall j :: 0 <= j < i ==> buried[j] == (ks[j] in db.items && ks[j] !in ks[..j])
      {
        BuryOneMore(db, ks, clock, i);
        buried := buried + [ks[i] in dbs[ns].items];
        dbs := dbs[ns := Bury(dbs[ns], ks[i], clock(i))];
      }
      assert ks[..|ks|] == ks;
    }

    /** Delete keys; the count leaves out absent, expired and repeated ones. */
    method Del(ns: Bytes, ks: seq<Bytes>, now: U64, clock: nat -> nat) returns (count: nat)
      requires Valid() && ValidNs(ns)
      modifies this, cache
      ensures Valid() && dbs == old(dbs)[ns := BuryAll(old(DbOf(dbs, ns)), ks, clock)]
      ensures count == |LiveKeys(old(DbOf(dbs, ns)), ks, now)|
    {
      hide ValidNs, CacheKey, Coherent, DbOf, BuryAll, LiveKeys, Expired;
      ghost var m := cache.entries;
      var db := DbOf(dbs, ns);
      var wasExpired := seq(|ks|, i requires 0 <= i < |ks| => Expired(db, ks[i], now));
      var buried := BuryEach(ns, ks, clock);
      for i := 0 to |ks|
        invariant cache.Valid() && Within(cache.entries, m) && cache.currentBytes <= old(cache.currentBytes)
        invariant dbs == old(dbs)[ns := BuryAll(db, ks, clock)]
        invariant forall j :: 0 <= j < i ==> CacheKey(ns, ks[j]) !in cache.entries
      {
        cache.Remove(CacheKey(ns, ks[i]));
      }
      CoherentDrop(m, cache.entries, old(dbs), ns, ks, clock);
      count := CountDeleted(db, ks, now, buried, wasExpired);
    }

    static method CountDeleted(ghost db: Db, ks: seq<Bytes>, ghost now: U64, buried: seq<bool>, wasExpired: seq<bool>) returns (count: nat)
      requires |buried| == |ks| == |wasExpired|
      requires forall i :: 0 <= i < |ks| ==> buried[i] == (ks[i] in db.items && ks[i] !in ks[..i])
      requires forall i :: 0 <= i < |ks| ==> wasExpired[i] == Expired(db, ks[i], now)
      ensures count == |LiveKeys(db, ks, now)|
    {
      hide LiveKeys, Expired;
      count := 0;
      NoKeys(db, now);
      for i := 0 to |ks|
        invariant count == |LiveKeys(db, ks[..i], now)|
      {
        LiveKeysNext(db, ks, now, i);
        if buried[i] && !wasExpired[i] {
          count := count + 1;
        }
      }
      assert ks[..|ks|] == ks;
    }

    method Exists(ns: Bytes, ks: seq<Bytes>, now: U64) returns (count: nat)
      ensures count == LiveCount(DbOf(dbs, ns), ks, now)
    {
      var db := DbOf(dbs, ns);
      count := 0;
      for i := 0 to |ks|
        invariant count == LiveCount(db, ks[..i], now)
      {
        assert ks[..i + 1][..i] == ks[..i];
        if ks[i] in db.items && !Expired(db, ks[i], now) {
          count := count + 1;
        }
      }
      assert ks[..|ks|] == ks;
    }

    /** The expiry of a write: kept from the index, none, or a validated deadline. */
    static method ChooseExpiry(db: Db, k: Bytes, ttl: Ttl, now: U64) returns (at: Option<Option<U64>>)
      ensures at == Expiry(db, k, ttl, now)
    {
      if ttl.KeepTtl? {
        return Some(if k in db.items then db.items[k].expires else None);
      }
      if ttl.ForMs? {
        var ms := Deadline(now, ttl.ms);
        return if ms.Some? then Some(ms) else None;
      }
      return Some(None);
    }

    /** `set`, `setnx`, `setxx` and `setrev`: the condition, if any, is checked in the log. */
    method Set(ns: Bytes, k: Bytes, value: Bytes, meta: Option<Bytes>, ttl: Ttl, cond: Option<Condition>, now: U64, clock: nat)
      returns (reply: Reply)
      requires Valid() && ValidNs(ns)
      modifies this, cache
      ensures Valid()
      ensures dbs == old(dbs)[ns := SetStep(old(DbOf(dbs, ns)), k, value, meta, ttl, cond, now, clock).0]
      ensures reply == SetStep(old(DbOf(dbs, ns)), k, value, meta, ttl, cond, now, clock).1
    {
      hide ValidNs, CacheKey, Coherent, PutIn, Live, Stamp, Expiry, Met, MemCache.Valid, Budgeted, Within, Room;
      var db := DbOf(dbs, ns);
      SameDb(cache.entries, dbs, ns);
      dbs := dbs[ns := db];
      var at := ChooseExpiry(db, k, if cond.Some? && cond.value.Revision? && ttl.KeepTtl? then NoTtl else ttl, now);
      if at.None? {
        return BadTtl;
      }
      if cond.Some? && !Met(cond.value, Live(db, k, now)) {
        return Wrote(None);
      }
      Write(ns, k, value, at.value, meta, clock);
      reply := if cond.Some? then Wrote(Some(Stamp(db, clock))) else Done;
    }

    method Expire(ns: Bytes, k: Bytes, ms: nat, now: U64, clock: nat -> nat) returns (reply: Reply)
      requires Valid() && ValidNs(ns)
      modifies this, cache
      ensures Valid() && Does(old(dbs), dbs, ns, ExpireCmd(k, ms), now, clock, NO_CODEC, reply)
    {
      hide ValidNs, CacheKey, Coherent, Bury;
      var db := DbOf(dbs, ns);
      if Live(db, k, now).None? {
        Evict(ns, k, db);
        return Flag(false);
      }
      SameDb(cache.entries, dbs, ns);
      dbs := dbs[ns := db];
      var at := Deadline(now, ms);
      if at.None? {
        return BadTtl;
      }
      var _ := Read(ns, k, now, clock(0), false);
      assert dbs == old(dbs)[ns := db];
      Evict(ns, k, Retime(db, k, at, clock(0)));
      return Flag(true);
    }

    method Persist(ns: Bytes, k: Bytes, now: U64, clock: nat -> nat) returns (reply: Reply)
      requires Valid() && ValidNs(ns)
      modifies this, cache
      ensures Valid() && Does(old(dbs), dbs, ns, PersistCmd(k), now, clock, NO_CODEC, reply)
    {
      hide ValidNs, CacheKey, Coherent, Bury;
      var db := DbOf(dbs, ns);
      SameDb(cache.entries, dbs, ns);
      dbs := dbs[ns := db];
      if k !in db.items || db.items[k].expires.None? || Expired(db, k, now) {
        return Flag(false);
      }
      var _ := Read(ns, k, now, clock(0), false);
      assert dbs == old(dbs)[ns := db];
      Evict(ns, k, Retime(db, k, None, clock(0)));
      return Flag(true);
    }

    /** A read that may change the expiry; `KeepTtl` leaves it alone. */
    method GetEx(ns: Bytes, k: Bytes, ttl: Ttl, now: U64, clock: nat -> nat) returns (reply: Reply)
      requires Valid() && ValidNs(ns)
      modifies this, cache
      ensures Valid() && Does(old(dbs), dbs, ns, GetExCmd(k, ttl), now, clock, NO_CODEC, reply)
    {
      hide ValidNs, CacheKey, Coherent, Bury, MemCache.Valid, Budgeted, Within, Room, SetStep, IncrStep, TouchAll, PutAll, BuryAll, LiveKeys, LiveCount;
      var db := DbOf(dbs, ns);
      var found := Read(ns, k, now, clock(0), true);
      if ttl.KeepTtl? || found.None? {
        return Found(found);
      }
      assert dbs == old(dbs)[ns := db];
      var at := if ttl.ForMs? then Deadline(now, ttl.ms) else None;
      if ttl.ForMs? && at.None? {
        return BadTtl;
      }
      Evict(ns, k, Retime(db, k, at, clock(0)));
      return Found(found);
    }

    method TtlOf(ns: Bytes, k: Bytes, now: U64, clock: nat -> nat) returns (reply: Reply)
      requires Valid() && ValidNs(ns)
      modifies this, cache
      ensures Valid() && Does(old(dbs), dbs, ns, TtlCmd(k), now, clock, NO_CODEC, reply)
    {
      hide ValidNs, CacheKey, Coherent;
      var db := DbOf(dbs, ns);
      SameDb(cache.entries, dbs, ns);
      dbs := dbs[ns := db];
      if k !in db.items {
        return Left(None);
      }
      var at := db.items[k].expires;
      if at.None? {
        return Left(Some(None));
      }
      if at.value <= now {
        Evict(ns, k, Bury(db, k, clock(0)));
        return Left(None);
      }
      return Left(Some(Some(at.value - now)));
    }

    method GetSet(ns: Bytes, k: Bytes, value: Bytes, now: U64, clock: nat -> nat) returns (reply: Reply)
      requires Valid() && ValidNs(ns)
      modifies this, cache
      ensures Valid() && Does(old(dbs), dbs, ns, GetSetCmd(k, value), now, clock, NO_CODEC, reply)
    {
      hide ValidNs, CacheKey, Coherent, PutIn, Touch;
      var was := Read(ns, k, now, clock(0), false);
      Write(ns, k, value, None, None, clock(1));
      return Found(was);
    }

    method GetDel(ns: Bytes, k: Bytes, now: U64, clock: nat -> nat) returns (reply: Reply)
      requires Valid() && ValidNs(ns)
      modifies this, cache
      ensures Valid() && Does(old(dbs), dbs, ns, GetDelCmd(k), now, clock, NO_CODEC, reply)
    {
      hide ValidNs, CacheKey, Coherent, Touch;
      var was := Read(ns, k, now, clock(0), false);
      Evict(ns, k, Bury(DbOf(dbs, ns), k, clock(1)));
      return Found(was);
    }

    method DelRev(ns: Bytes, k: Bytes, rev: U64, now: U64, clock: nat -> nat) returns (reply: Reply)
      requires Valid() && ValidNs(ns)
      modifies this, cache
      ensures Valid() && Does(old(dbs), dbs, ns, DelRevCmd(k, rev), now, clock, NO_CODEC, reply)
    {
      hide ValidNs, CacheKey, Coherent;
      var db := DbOf(dbs, ns);
      if !Met(LogMachine.Revision(rev), Live(db, k, now)) {
        SameDb(cache.entries, dbs, ns);
        dbs := dbs[ns := db];
        return Wrote(None);
      }
      Evict(ns, k, Bury(db, k, clock(0)));
      return Wrote(Some(Stamp(db, clock(0))));
    }

    /** One attempt of `incr`: read through the cache, add, write on the revision read. */
    method Incr(ns: Bytes, k: Bytes, delta: int, now: U64, clock: nat -> nat, codec: Codec) returns (reply: Reply)
      requires Valid() && ValidNs(ns)
      modifies this, cache
      ensures Valid() && Does(old(dbs), dbs, ns, IncrCmd(k, delta), now, clock, codec, reply)
    {
      hide ValidNs, CacheKey, Coherent, PutIn, Touch, Live, Counter, InI64, MemCache.Valid, Budgeted, Within, Room, SetStep, TouchAll, PutAll, BuryAll, LiveKeys, LiveCount;
      var current := Read(ns, k, now, clock(0), false);
      var n := Counter(codec, current);
      if n.None? {
        return NotAnInteger;
      }
      if !InI64(n.value + delta) {
        return Overflow;
      }
      var expires := if current.Some? then current.value.expires else None;
      Write(ns, k, codec.render(n.value + delta), expires, None, clock(1));
      return Number(n.value + delta);
    }

    /** Drop the namespace from the cache by its prefix, then from the log. */
    method Flush(ns: Bytes, clock: nat)
      requires Valid() && ValidNs(ns)
      modifies this, cache
      ensures Valid() && dbs == old(dbs)[ns := Db(map[], Stamp(old(DbOf(dbs, ns)), clock))]
      ensures forall ns2, k :: ValidNs(ns2) ==> (CacheKey(ns2, k) in cache.entries <==> CacheKey(ns2, k) in old(cache.entries) && ns2 != ns)
    {
      hide ValidNs, CacheKey, Coherent;
      ghost var m := cache.entries;
      cache.RemoveByPrefix(ns + [0]);
      CoherentFlush(m, cache.entries, dbs, ns, Db(map[], Stamp(DbOf(dbs, ns), clock)));
      dbs := dbs[ns := Db(map[], Stamp(DbOf(dbs, ns), clock))];
    }

    method Sweep(now: U64)
      requires Valid()
      modifies cache
      ensures Valid()
    {
      hide Coherent;
      ghost var m := cache.entries;
      var _ := cache.SweepExpired(now);
      CoherentWithin(m, cache.entries, dbs);
    }
  }

  /** One command on one namespace. */
  method Execute(store: ShardStore, ns: Bytes, c: Command, now: U64, clock: nat -> nat, codec: Codec) returns (reply: Reply)
    requires store.Valid()
    modifies store, store.cache
    ensures store.Valid()
    ensures if ValidNs(ns) then Does(old(store.dbs), store.dbs, ns, c, now, clock, codec, reply)
            else store.dbs == old(store.dbs) && reply == BadNamespace
  {
    hide ValidNs, CacheKey, Coherent, Touch, Bury, PutIn, DbOf, TouchAll, BuryAll, PutAll, LiveKeys, LiveCount, Live, SetStep, IncrStep;
    if !ValidNs(ns) {
      return BadNamespace;
    }
    ghost var db := DbOf(store.dbs, ns);
    match c {
      case GetCmd(k) =>
        var r := store.Read(ns, k, now, clock(0), true);
        reply := Found(r);
      case MGetCmd(ks) =>
        var rs := store.MGet(ns, ks, now, clock);
        reply := FoundAll(rs);
      case SetCmd(k, v, meta, ttl) => reply := store.Set(ns, k, v, meta, ttl, None, now, clock(0));
      case SetIfCmd(k, v, meta, ttl, cond) => reply := store.Set(ns, k, v, meta, ttl, Some(cond), now, clock(0));
      case MSetCmd(pairs) =>
        store.MSet(ns, pairs, clock);
        reply := Done;
      case DelCmd(ks) =>
        var n := store.Del(ns, ks, now, clock);
        reply := Count(n);
      case FlushCmd =>
        store.Flush(ns, clock(0));
        reply := Done;
      case _ => reply := ExecuteOther(store, ns, c, now, clock, codec);
    }
  }

  method ExecuteOther(store: ShardStore, ns: Bytes, c: Command, now: U64, clock: nat -> nat, codec: Codec) returns (reply: Reply)
    requires store.Valid() && ValidNs(ns)
    requires !c.GetCmd? && !c.MGetCmd? && !c.SetCmd? && !c.SetIfCmd? && !c.MSetCmd? && !c.DelCmd? && !c.FlushCmd?
    modifies store, store.cache
    ensures store.Valid() && Does(old(store.dbs), store.dbs, ns, c, now, clock, codec, reply)
  {
    hide ValidNs, CacheKey, Coherent, Step;
    match c {
      case ExpireCmd(k, ms) => reply := store.Expire(ns, k, ms, now, clock);
      case PersistCmd(k) => reply := store.Persist(ns, k, now, clock);
      case GetExCmd(k, ttl) => reply := store.GetEx(ns, k, ttl, now, clock);
      case TtlCmd(k) => reply := store.TtlOf(ns, k, now, clock);
      case GetSetCmd(k, v) => reply := store.GetSet(ns, k, v, now, clock);
      case GetDelCmd(k) => reply := store.GetDel(ns, k, now, clock);
      case DelRevCmd(k, rev) => reply := store.DelRev(ns, k, rev, now, clock);
      case IncrCmd(k, delta) => reply := store.Incr(ns, k, delta, now, clock, codec);
      case ExistsCmd(ks) => reply := ExecuteQuiet(store, ns, c, now, clock, codec);
      case ReclaimCmd => reply := ExecuteQuiet(store, ns, c, now, clock, codec);
      case SweepCmd => reply := ExecuteQuiet(store, ns, c, now, clock, codec);
    }
    NoCounter(DbOf(old(store.dbs), ns), c, now, clock, codec);
  }

  /** Commands that leave the log's items alone. */
  method ExecuteQuiet(store: ShardStore, ns: Bytes, c: Command, now: U64, clock: nat -> nat, codec: Codec) returns (reply: Reply)
    requires store.Valid() && ValidNs(ns) && (c.ExistsCmd? || c.ReclaimCmd? || c.SweepCmd?)
    modifies store, store.cache
    ensures store.Valid() && Does(old(store.dbs), store.dbs, ns, c, now, clock, codec, reply)
  {
    hide ValidNs, CacheKey, Coherent;
    SameDb(store.cache.entries, store.dbs, ns);
    ghost var db := DbOf(store.dbs, ns);
    store.dbs := store.dbs[ns := DbOf(store.dbs, ns)];
    NsOf(old(store.dbs), ns, db);
    reply := Done;
    if c.ExistsCmd? {
      var n := store.Exists(ns, c.ks, now);
      reply := Count(n);
    } else if c.SweepCmd? {
      store.Sweep(now);
    }
  }

  /** Only `incr` looks at the codec. */
  lemma NoCounter(db: Db, c: Command, now: U64, clock: nat -> nat, codec: Codec)
    ensures !c.IncrCmd? ==> Step(db, c, now, clock, NO_CODEC) == Step(db, c, now, clock, codec)
  {
  }

  /** A command with its namespace and the clock readings it sees. */
  datatype Request = Request(ns: Bytes, c: Command, now: U64, clock: nat -> nat)

  function Respond(dbs: Dbs, r: Request, codec: Codec): (Dbs, Reply) {
    if !ValidNs(r.ns) then (dbs, BadNamespace)
    else var s := Step(DbOf(dbs, r.ns), r.c, r.now, r.clock, codec); (dbs[r.ns := s.0], s.1)
  }

  /** The logs after a run of requests, and every reply, with no cache. */
  function Uncached(dbs: Dbs, rs: seq<Request>, codec: Codec): (r: (Dbs, seq<Reply>))
    ensures |r.1| == |rs|
  {
    if rs == [] then (dbs, [])
    else var before := Uncached(dbs, rs[..|rs| - 1], codec);
         var s := Respond(before.0, rs[|rs| - 1], codec);
         (s.0, before.1 + [s.1])
  }

  /** For every run of requests and every cache size, the cached store replies, and leaves
      the logs, exactly as the uncached one does; and the cached keys, values and metadata
      take no more memory than it was given. */
  method Run(maxBytes: nat, dbs: Dbs, rs: seq<Request>, codec: Codec) returns (store: ShardStore, replies: seq<Reply>)
    ensures store.dbs == Uncached(dbs, rs, codec).0 && replies == Uncached(dbs, rs, codec).1
    ensures HeldBytes(store.cache.entries) <= maxBytes
  {
    hide ValidNs, Coherent, Step, DbOf, HeldBytes;
    store := new ShardStore(maxBytes, dbs);
    replies := [];
    for i := 0 to |rs|
      invariant fresh(store) && fresh(store.cache) && store.Valid() && store.cache.maxBytes == maxBytes
      invariant store.dbs == Uncached(dbs, rs[..i], codec).0 && replies == Uncached(dbs, rs[..i], codec).1
    {
      assert rs[..i + 1][..i] == rs[..i];
      var reply := Execute(store, rs[i].ns, rs[i].c, rs[i].now, rs[i].clock, codec);
      replies := replies + [reply];
    }
    assert rs[..|rs|] == rs;
    HeldBound(store.cache.entries);
  }

  /** The uncached specification, as a relation between stores. */
  ghost predicate Does(dbs: Dbs, dbs': Dbs, ns: Bytes, c: Command, now: U64, clock: nat -> nat, codec: Codec, reply: Reply) {
    var s := Step(DbOf(dbs, ns), c, now, clock, codec);
    dbs' == dbs[ns := s.0] && reply == s.1
  }

  /** For commands that parse no counter. */
  const NO_CODEC: Codec := Codec(_ => [], _ => None)

  /** Only `k` may differ. */
  ghost predicate Changes(db: Db, db': Db, k: Bytes) {
    forall j :: j != k ==> Get(db'.items, j) == Get(db.items, j)
  }

  /** Tombstones for the keys at the positions `ps`. */
  function BuryAt(db: Db, ks: seq<Bytes>, ps: seq<nat>, clock: nat -> nat): Db
    requires Positions(ps, ks)
  {
    if ps == [] then db
    else Bury(BuryAt(db, ks, ps[..|ps| - 1], clock), ks[ps[|ps| - 1]], clock(ps[|ps| - 1]))
  }

  predicate Positions(ps: seq<nat>, ks: seq<Bytes>) {
    forall i :: 0 <= i < |ps| ==> ps[i] < |ks|
  }

  lemma BuryNext(db: Db, ks: seq<Bytes>, ps: seq<nat>, clock: nat -> nat, i: nat)
    requires Positions(ps, ks) && i < |ps|
    ensures BuryAt(db, ks, ps[..i + 1], clock) == Bury(BuryAt(db, ks, ps[..i], clock), ks[ps[i]], clock(ps[i]))
  {
    assert ps[..i + 1][..i] == ps[..i];
  }

  lemma StartTouch(db: Db, ks: seq<Bytes>, now: U64, clock: nat -> nat)
    ensures BuryAt(db, ks, [], clock) == TouchAll(db, ks[..0], now, clock)
  {
  }

  /** Reading only ever takes expired keys away. */
  lemma {:induction false} TouchAllKeeps(db: Db, ks: seq<Bytes>, now: U64, clock: nat -> nat)
    ensures forall k :: k in TouchAll(db, ks, now, clock).items ==> k in db.items && TouchAll(db, ks, now, clock).items[k] == db.items[k]
    ensures forall k :: k in db.items && !Expired(db, k, now) ==> k in TouchAll(db, ks, now, clock).items
  {
    if ks != [] {
      TouchAllKeeps(db, ks[..|ks| - 1], now, clock);
    }
  }

  lemma TouchKeepsLive(db: Db, ks: seq<Bytes>, now: U64, clock: nat -> nat)
    ensures forall k :: Live(db, k, now).Some? ==> k in TouchAll(db, ks, now, clock).items && Live(db, k, now).value == TouchAll(db, ks, now, clock).items[k]
  {
    TouchAllKeeps(db, ks, now, clock);
  }

  lemma TouchNext(db: Db, ks: seq<Bytes>, now: U64, clock: nat -> nat, i: nat, ps: seq<nat>)
    requires i < |ks| && Positions(ps, ks)
    requires BuryAt(db, ks, ps, clock) == TouchAll(db, ks[..i], now, clock)
    ensures if Expired(db, ks[i], now) then BuryAt(db, ks, ps + [i], clock) == TouchAll(db, ks[..i + 1], now, clock)
            else BuryAt(db, ks, ps, clock) == TouchAll(db, ks[..i + 1], now, clock)
  {
    assert ks[..i + 1][..i] == ks[..i];
    assert (ps + [i])[..|ps|] == ps;
    TouchAllKeeps(db, ks[..i], now, clock);
  }

  lemma LiveCases(db: Db, k: Bytes, now: U64)
    ensures Expired(db, k, now) <==> k in db.items && db.items[k].Expired(now)
    ensures Live(db, k, now) == if k in db.items && !Expired(db, k, now) then Some(db.items[k]) else None
  {
  }

  /** Deleting a key that is not cached. */
  lemma UncachedBury(m: Entries, dbs: Dbs, ns: Bytes, k: Bytes, clock: nat)
    requires Coherent(m, dbs) && ValidNs(ns) && CacheKey(ns, k) !in m
    ensures Coherent(m, dbs[ns := Bury(DbOf(dbs, ns), k, clock)])
  {
    hide ValidNs, CacheKey;
    CoherentFollows(m, m, dbs, ns, k, Bury(DbOf(dbs, ns), k, clock));
  }

  lemma {:induction false} BuryAllItems(db: Db, ks: seq<Bytes>, clock: nat -> nat)
    ensures forall k :: Get(BuryAll(db, ks, clock).items, k) == if k in ks then None else Get(db.items, k)
  {
    if ks != [] {
      var n := |ks| - 1;
      BuryAllItems(db, ks[..n], clock);
      assert ks == ks[..n] + [ks[n]];
      assert forall k :: k in ks <==> k in ks[..n] || k == ks[n];
    }
  }

  lemma BuryNone(db: Db, clock: nat -> nat)
    ensures forall ks: seq<Bytes> :: ks == [] ==> BuryAll(db, ks, clock) == db
  {
  }

  lemma BuryOneMore(db: Db, ks: seq<Bytes>, clock: nat -> nat, i: nat)
    requires i < |ks|
    ensures BuryAll(db, ks[..i + 1], clock) == Bury(BuryAll(db, ks[..i], clock), ks[i], clock(i))
    ensures ks[i] in BuryAll(db, ks[..i], clock).items <==> ks[i] in db.items && ks[i] !in ks[..i]
  {
    hide Bury;
    assert ks[..i + 1][..i] == ks[..i];
    BuryAllItems(db, ks[..i], clock);
    assert Get(BuryAll(db, ks[..i], clock).items, ks[i]) == if ks[i] in ks[..i] then None else Get(db.items, ks[i]);
  }

  lemma CoherentDrop(m: Entries, m': Entries, dbs: Dbs, ns: Bytes, ks: seq<Bytes>, clock: nat -> nat)
    requires Coherent(m, dbs) && ValidNs(ns) && Within(m', m)
    requires forall i :: 0 <= i < |ks| ==> CacheKey(ns, ks[i]) !in m'
    ensures Coherent(m', dbs[ns := BuryAll(DbOf(dbs, ns), ks, clock)])
  {
    hide ValidNs, CacheKey, BuryAll;
    var db := DbOf(dbs, ns);
    BuryAllItems(db, ks, clock);
    forall ns2, k | ValidNs(ns2) && CacheKey(ns2, k) in m' ensures Holds(m', dbs[ns := BuryAll(db, ks, clock)], ns2, k) {
      assert Holds(m, dbs, ns2, k);
      if ns2 == ns {
        assert k !in ks;
        assert Get(BuryAll(db, ks, clock).items, k) == Get(db.items, k);
      }
    }
  }

  lemma NoKeys(db: Db, now: U64)
    ensures forall ks :: ks == [] ==> LiveKeys(db, ks, now) == {}
  {
  }

  lemma LiveKeysNext(db: Db, ks: seq<Bytes>, now: U64, i: nat)
    requires i < |ks|
    ensures |LiveKeys(db, ks[..i + 1], now)|
            == |LiveKeys(db, ks[..i], now)| + if ks[i] in db.items && ks[i] !in ks[..i] && !Expired(db, ks[i], now) then 1 else 0
  {
    assert ks[..i + 1] == ks[..i] + [ks[i]];
    if Live(db, ks[i], now).Some? {
      assert LiveKeys(db, ks[..i + 1], now) == LiveKeys(db, ks[..i], now) + {ks[i]};
    } else {
      assert LiveKeys(db, ks[..i + 1], now) == LiveKeys(db, ks[..i], now);
    }
  }

  lemma NsOf(dbs: Dbs, ns: Bytes, db: Db)
    ensures DbOf(dbs[ns := db], ns) == db
  {
  }

  lemma StartBatch(m: Entries, dbs: Dbs, ns: Bytes)
    requires Coherent(m, dbs)
    ensures forall pairs, clock :: pairs == [] ==> Coherent(m, dbs[ns := PutAll(DbOf(dbs, ns), pairs, clock)])
  {
    SameDb(m, dbs, ns);
  }

  /** The revision the `i`th pair of a batch gets. */
  function RevisionAt(db: Db, pairs: seq<(Bytes, Bytes)>, clock: nat -> nat, i: nat): nat
    requires i < |pairs|
  {
    Stamp(PutAll(db, pairs[..i], clock), clock(i))
  }

  lemma PutNext(db: Db, pairs: seq<(Bytes, Bytes)>, clock: nat -> nat, i: nat)
    requires i < |pairs|
    ensures PutAll(db, pairs[..i + 1], clock) == PutIn(PutAll(db, pairs[..i], clock), pairs[i].0, pairs[i].1, None, None, clock(i))
  {
    assert pairs[..i + 1][..i] == pairs[..i];
  }

  lemma PutRevision(db: Db, pairs: seq<(Bytes, Bytes)>, clock: nat -> nat, i: nat)
    requires i < |pairs|
    ensures var db1, db2 := PutAll(db, pairs[..i], clock), PutAll(db, pairs[..i + 1], clock);
            Changes(db1, db2, pairs[i].0) && Get(db2.items, pairs[i].0) == Some(Item(pairs[i].1, None, None, RevisionAt(db, pairs, clock, i)))
  {
    PutNext(db, pairs, clock, i);
  }

  lemma SameDb(m: Entries, dbs: Dbs, ns: Bytes)
    requires Coherent(m, dbs)
    ensures Coherent(m, dbs[ns := DbOf(dbs, ns)])
  {
    hide ValidNs, CacheKey;
    forall ns2, k | ValidNs(ns2) && CacheKey(ns2, k) in m ensures Holds(m, dbs[ns := DbOf(dbs, ns)], ns2, k) {
      assert Holds(m, dbs, ns2, k);
    }
  }
}
