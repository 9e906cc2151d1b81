/** The in-memory index of a namespace: entries, expiry sidecar, blob sidecar. */
module NamespaceIndex {
  import opened Types
  import opened Order

  /** Where the latest record of a key is; `tstamp` is also the key's revision. */
  datatype IndexEntry = IndexEntry(fileId: nat, offset: nat, size: nat, tstamp: U64)

  /** What the index knows about one key. */
  datatype Slot = Slot(entry: Option<IndexEntry>, ttl: Option<U64>, blob: Option<Hash>)

  datatype Index = Index(entries: map<Bytes, IndexEntry>, ttl: map<Bytes, U64>, blobs: map<Bytes, Hash>)
  {
    function At(k: Bytes): Slot {
      Slot(Get(entries, k), Get(ttl, k), Get(blobs, k))
    }

    predicate Expired(k: Bytes, now: U64) {
      k in ttl && ttl[k] <= now
    }

    /** The revision a condition is checked against: none when absent or expired. */
    function LiveRev(k: Bytes, now: U64): Option<U64> {
      if Expired(k, now) || k !in entries then None else Some(entries[k].tstamp)
    }

    function Insert(k: Bytes, e: IndexEntry, expires: Option<U64>): (idx: Index)
      ensures forall j :: idx.At(j) == if j == k then Slot(Some(e), expires, At(k).blob) else At(j)
    {
      Index(entries[k := e], Put(ttl, k, expires), blobs)
    }

    function SetTtl(k: Bytes, expires: Option<U64>): (idx: Index)
      ensures forall j :: idx.At(j) == if j == k then At(k).(ttl := expires) else At(j)
    {
      this.(ttl := Put(ttl, k, expires))
    }

    function SetBlob(k: Bytes, h: Option<Hash>): (idx: Index)
      ensures forall j :: idx.At(j) == if j == k then At(k).(blob := h) else At(j)
    {
      this.(blobs := Put(blobs, k, h))
    }

    function Remove(k: Bytes): (idx: Index)
      ensures forall j :: idx.At(j) == if j == k then Slot(None, None, None) else At(j)
    {
      Index(entries - {k}, ttl - {k}, blobs - {k})
    }
  }

  const EMPTY := Index(map[], map[], map[])

  /** A key a scan may yield. */
  predicate Eligible(idx: Index, now: U64, filter: Bytes -> bool, k: Bytes) {
    k in idx.entries && !idx.Expired(k, now) && filter(k)
  }

  /** A page holds every eligible key above the cursor up to the last one it yields,
      in order; it ends the scan exactly when it is not full. */
  ghost predicate IsPage(idx: Index, cursor: Option<Bytes>, count: nat, now: U64, filter: Bytes -> bool,
                         page: seq<Bytes>, next: Option<Bytes>)
  {
    var limit := if count == 0 then 1 else count;
    && Ascending(page)
    && |page| <= limit
    && (forall i :: 0 <= i < |page| ==> Eligible(idx, now, filter, page[i]) && Above(page[i], cursor))
    && next == (if |page| < limit then None else Some(page[|page| - 1]))
    && (forall k :: Eligible(idx, now, filter, k) && Above(k, cursor) && (next.Some? ==> !Less(next.value, k)) ==> k in page)
  }

  lemma DropCount(entries: map<Bytes, IndexEntry>, k: Bytes)
    ensures |entries - {k}| == if k in entries then |entries| - 1 else |entries|
  {
    assert (entries - {k}).Keys == entries.Keys - {k};
    if k !in entries {
      assert entries - {k} == entries;
    }
  }

  class NsIndex {
    var entries: map<Bytes, IndexEntry>
    var ttl: map<Bytes, U64>
    var blobs: map<Bytes, Hash>
    var liveCount: nat

    ghost predicate Valid()
      reads this
    {
      liveCount == |entries|
    }

    ghost function View(): Index
      reads this
    {
      Index(entries, ttl, blobs)
    }

    constructor ()
      ensures Valid() && View() == EMPTY
    {
      entries, ttl, blobs, liveCount := map[], map[], map[], 0;
    }

    method Insert(k: Bytes, e: IndexEntry, expires: Option<U64>)
      requires Valid()
      modifies this
      ensures Valid() && View() == old(View()).Insert(k, e, expires)
    {
      match expires {
        case Some(ms) => ttl := ttl[k := ms];
        case None => ttl := ttl - {k};
      }
      if k !in entries {
        assert entries[k := e].Keys == entries.Keys + {k};
        liveCount := liveCount + 1;
      } else {
        assert entries[k := e].Keys == entries.Keys;
      }
      entries := entries[k := e];
    }

    method SetTtl(k: Bytes, expires: Option<U64>)
      requires Valid()
      modifies this
      ensures Valid() && View() == old(View()).SetTtl(k, expires)
    {
      match expires {
        case Some(ms) => ttl := ttl[k := ms];
        case None => ttl := ttl - {k};
      }
    }

    method SetBlob(k: Bytes, h: Option<Hash>)
      requires Valid()
      modifies this
      ensures Valid() && View() == old(View()).SetBlob(k, h)
    {
      match h {
        case Some(x) => blobs := blobs[k := x];
        case None => blobs := blobs - {k};
      }
    }

    method Remove(k: Bytes) returns (removed: Option<IndexEntry>)
      requires Valid()
      modifies this
      ensures Valid() && View() == old(View()).Remove(k)
      ensures removed == old(View()).At(k).entry
    {
      ttl := ttl - {k};
      blobs := blobs - {k};
      removed := Get(entries, k);
      DropCount(entries, k);
      entries := entries - {k};
      if removed.Some? {
        liveCount := liveCount - 1;
      }
    }

    method Clear()
      modifies this
      ensures Valid() && View() == EMPTY
    {
      entries, ttl, blobs, liveCount := map[], map[], map[], 0;
    }

    /** Walks the keys above `cursor` in order, collecting up to `count` live keys
        that pass `filter`. */
    method Scan(cursor: Option<Bytes>, count: nat, now: U64, filter: Bytes -> bool)
      returns (page: seq<Bytes>, next: Option<Bytes>)
      ensures IsPage(View(), cursor, count, now, filter, page, next)
    {
      hide Less;
      var limit := if count == 0 then 1 else count;
      page := [];
      var rest := set k | k in entries.Keys && Above(k, cursor);
      while rest != {} && |page| < limit
        invariant |page| <= limit
        invariant forall k :: k in rest ==> k in entries && Above(k, cursor)
        invariant forall k, i :: k in rest && 0 <= i < |page| ==> Less(page[i], k)
        invariant Ascending(page)
        invariant forall i :: 0 <= i < |page| ==> Eligible(View(), now, filter, page[i]) && Above(page[i], cursor)
        invariant forall k :: Eligible(View(), now, filter, k) && Above(k, cursor) && k !in rest ==> k in page
        decreases rest
      {
        LeastExists(rest);
        var k :| k in rest && forall j :: j in rest ==> j == k || Less(k, j);
        rest := rest - {k};
        if !(k in ttl && ttl[k] <= now) && filter(k) {
          page := page + [k];
        }
      }
      next := if |page| >= limit then Some(page[|page| - 1]) else None;
      forall k | next.Some? && !Less(next.value, k)
        ensures k !in rest
      {
      }
    }
  }
}
