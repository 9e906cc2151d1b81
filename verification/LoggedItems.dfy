/** What the store's specification calls a namespace (its live items and its last revision),
    read off the segment files and the index. Writes, rotations and merges of the files do to
    it what the store's commands do. */
module LoggedItems {
  import opened Types
  import opened Records
  import opened NamespaceIndex
  import opened Segments
  import opened Merge
  import opened SegmentState
  import opened Compaction
  import opened Cache
  import Durability
  import Store

  /** The value a record stands for; `content` is what the blob files hold. */
  function ValueOf(content: Hash -> Bytes, r: Record): Bytes {
    if r.Blob().Some? then content(r.Blob().value) else r.value
  }

  /** Metadata is serialized JSON: no bytes means none was given. */
  function MetaOf(r: Record): Option<Bytes> {
    if r.meta == [] then None else Some(r.meta)
  }

  function ItemOf(content: Hash -> Bytes, r: Record, expires: Option<U64>): Item {
    Item(ValueOf(content, r), expires, MetaOf(r), r.tstamp)
  }

  /** The record a put writes stands for the value, metadata and expiry it was given, as long as
      the blob files hold what was stored in them. */
  lemma PutItem(hash: Bytes -> Hash, content: Hash -> Bytes, threshold: nat, key: Bytes, value: Bytes, meta: Bytes, expires: Option<U64>, t: U64)
    requires content(hash(value)) == value
    requires Durability.StoredPair(hash, threshold, key, value, meta, expires).Ok()
    ensures var r := Durability.StoredPair(hash, threshold, key, value, meta, expires).ToRecord(t);
            ItemOf(content, r, r.Expiry()) == Item(value, expires, if meta == [] then None else Some(meta), t)
  {
  }

  /** The record from the files, the expiry from the index. */
  function ItemsOf(content: Hash -> Bytes, latest: map<Bytes, Option<Record>>, idx: Index): map<Bytes, Item> {
    map k | k in latest && latest[k].Some? :: ItemOf(content, latest[k].value, idx.At(k).ttl)
  }

  function DbAt(content: Hash -> Bytes, dir: Dir, idx: Index, last: nat): Store.Db {
    Store.Db(ItemsOf(content, Latest(dir, idx), idx), last)
  }

  /** What an operation on the files is for the store. */
  function StoreStep(content: Hash -> Bytes, db: Store.Db, op: Op, clock: nat): Store.Db {
    match op
    case PutOp(r) => Store.PutIn(db, r.key, ValueOf(content, r), r.Expiry(), MetaOf(r), clock)
    case DeleteOp(r) => Store.Bury(db, r.key, clock)
    case TtlOp(r) => Store.Retime(db, r.key, r.Expiry(), clock)
    case RotateOp => db
    case ReclaimOp(_, _) => Store.Step(db, Store.ReclaimCmd, 0, _ => clock, Store.NO_CODEC).0
  }

  /** The record of a write carries the next revision. */
  predicate Stamped(db: Store.Db, op: Op, clock: nat) {
    match op
    case PutOp(r) => r.tstamp == Store.Stamp(db, clock)
    case DeleteOp(r) => r.tstamp == Store.Stamp(db, clock)
    case TtlOp(r) => r.tstamp == Store.Stamp(db, clock)
    case _ => true
  }

  lemma PutItems(content: Hash -> Bytes, latest: map<Bytes, Option<Record>>, idx: Index, idx': Index, r: Record)
    requires forall k :: idx'.At(k).ttl == if k == r.key then r.Expiry() else idx.At(k).ttl
    ensures ItemsOf(content, latest[r.key := Some(r)], idx') == ItemsOf(content, latest, idx)[r.key := ItemOf(content, r, r.Expiry())]
  {
    hide ItemOf, Index.At, Record.Expiry;
  }

  lemma DeleteItems(content: Hash -> Bytes, latest: map<Bytes, Option<Record>>, idx: Index, key: Bytes)
    ensures ItemsOf(content, latest - {key}, idx.Remove(key)) == ItemsOf(content, latest, idx) - {key}
  {
    hide ItemOf;
  }

  lemma TtlItems(content: Hash -> Bytes, latest: map<Bytes, Option<Record>>, idx: Index, key: Bytes, at: Option<U64>)
    ensures var items := ItemsOf(content, latest, idx);
            ItemsOf(content, latest, idx.SetTtl(key, at)) == if key in items then items[key := items[key].(expires := at)] else items
  {
  }

  /** Moving records about leaves every item as it was. */
  lemma MovedItems(content: Hash -> Bytes, latest: map<Bytes, Option<Record>>, idx: Index, idx': Index)
    requires idx.ttl == idx'.ttl
    ensures ItemsOf(content, latest, idx') == ItemsOf(content, latest, idx)
  {
  }

  lemma LiveHasItem(content: Hash -> Bytes, fanout: nat, s: Segs, k: Bytes)
    requires Steady(fanout, s)
    ensures k in ItemsOf(content, Latest(s.dir, s.index), s.index) <==> k in s.index.entries
  {
    hide Tiers, Rewritten, Remembers, Unsealed, Resolves, OthersSealed, PointsInto, ItemOf;
  }

  /** One operation on the files does to the items what the store's command does. */
  method Perform(content: Hash -> Bytes, log: SegmentedLog, op: Op, last: nat, clock: nat) returns (ok: bool, last': nat)
    requires log.Valid() && WellFormed(op) && Stamped(DbAt(content, log.dir, log.index, last), op, clock)
    modifies log
    ensures ok ==> log.Valid()
    ensures ok ==> DbAt(content, log.dir, log.index, last') == StoreStep(content, old(DbAt(content, log.dir, log.index, last)), op, clock)
    ensures !ok ==> log.top >= U32_MAX || OpenCanFail(op)
  {
    hide Steady, Latest, Recovers, SafeSince, RunsAt, HandlesServe, Noted, FooterFor, ServesAll, ItemsOf,
         Record.IsFull, Record.IsTombstone, Record.IsTtlUpdate, Record.Fits, Record.Expiry, Index.Remove, Index.SetTtl;
    ok, last' := true, last;
    ghost var latest, idx := Latest(log.dir, log.index), log.index;
    match op {
      case PutOp(r) =>
        log.Put(r);
        PutItems(content, latest, idx, log.index, r);
        last' := r.tstamp;
      case DeleteOp(r) =>
        LiveHasItem(content, log.fanout, log.View(), r.key);
        var found := log.Delete(r);
        if found {
          DeleteItems(content, latest, idx, r.key);
          last' := r.tstamp;
        }
      case TtlOp(r) =>
        log.UpdateTtl(r);
        TtlItems(content, latest, idx, r.key, r.Expiry());
        last' := r.tstamp;
      case RotateOp =>
        ok := log.RotateActive();
      case ReclaimOp(removable, opens) =>
        var outcome := log.Reclaim(removable, opens);
        ok := outcome.Finished?;
        MovedItems(content, latest, idx, log.index);
    }
  }

  /** The store's view of a whole run. */
  function StoreRun(content: Hash -> Bytes, ops: seq<Op>, clock: nat -> nat): Store.Db {
    if ops == [] then Store.Db(map[], 0)
    else StoreStep(content, StoreRun(content, ops[..|ops| - 1], clock), ops[|ops| - 1], clock(|ops| - 1))
  }

  /** After any run of writes, rotations and reclaims, the items read off the files and the
      index are the ones the store's commands leave, in which a reclaim does nothing. */
  method RunItems(content: Hash -> Bytes, fanout: nat, ops: seq<Op>, clock: nat -> nat)
    returns (log: SegmentedLog, ok: bool, n: nat, last: nat)
    requires fanout >= 2
    requires forall i :: 0 <= i < |ops| ==> WellFormed(ops[i]) && Stamped(StoreRun(content, ops[..i], clock), ops[i], clock(i))
    ensures n <= |ops| && (ok ==> n == |ops| && log.Valid() && DbAt(content, log.dir, log.index, last) == StoreRun(content, ops, clock))
    ensures !ok ==> n > 0 && (log.top >= U32_MAX || OpenCanFail(ops[n - 1]))
  {
    hide Steady, StoreStep, Stamped, SafeSince;
    log := new SegmentedLog(fanout);
    n, ok, last := 0, true, 0;
    assert DbAt(content, log.dir, log.index, last) == StoreRun(content, ops[..0], clock);
    hide DbAt;
    while n < |ops|
      invariant n <= |ops| && ok && log.Valid() && fresh(log)
      invariant DbAt(content, log.dir, log.index, last) == StoreRun(content, ops[..n], clock)
    {
      assert ops[..n + 1][..n] == ops[..n];
      ok, last := Perform(content, log, ops[n], last, clock(n));
      n := n + 1;
      if !ok {
        return;
      }
    }
    assert ops[..n] == ops;
  }
}
