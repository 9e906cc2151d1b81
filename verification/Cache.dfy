/** The S3-FIFO cache in front of the log: a small and a main queue of key slots, a bounded
    ghost list of keys evicted from the small queue, and a byte budget. */
module Cache {
  import opened Types

  /** What a reader sees of an entry. */
  datatype Item = Item(value: Bytes, expires: Option<U64>, meta: Option<Bytes>, revision: nat)
  {
    predicate Expired(now: U64) { expires.Some? && expires.value <= now }
  }

  /** `hot` is the one-bit access counter. */
  datatype CacheEntry = CacheEntry(item: Item, hot: bool, size: nat)

  type Entries = map<Bytes, CacheEntry>

  function ItemsOf(m: Entries): map<Bytes, Item> {
    map k | k in m :: m[k].item
  }

  /** The bytes charged for all entries together. */
  ghost function SizeOf(m: Entries): nat {
    if m == map[] then 0 else var k :| k in m; m[k].size + SizeOf(m - {k})
  }

  lemma {:induction false} SizeRemove(m: Entries, k: Bytes)
    requires k in m
    ensures SizeOf(m) == m[k].size + SizeOf(m - {k})
    decreases |m|
  {
    var j :| j in m && SizeOf(m) == m[j].size + SizeOf(m - {j});
    if j != k {
      SizeRemove(m - {j}, k);
      SizeRemove(m - {k}, j);
      assert m - {j} - {k} == m - {k} - {j};
    }
  }

  lemma SizeInsert(m: Entries, k: Bytes, e: CacheEntry)
    ensures SizeOf(m[k := e]) == SizeOf(m - {k}) + e.size
    ensures k !in m ==> SizeOf(m[k := e]) == SizeOf(m) + e.size
    ensures k in m ==> SizeOf(m[k := e]) == SizeOf(m) - m[k].size + e.size
  {
    SizeRemove(m[k := e], k);
    assert m[k := e] - {k} == m - {k};
    if k in m {
      SizeRemove(m, k);
    } else {
      assert m - {k} == m;
    }
  }

  /** The bytes of all cached keys and values. */
  ghost function BytesOf(m: Entries): nat {
    if m == map[] then 0 else var k :| k in m; |k| + |m[k].item.value| + BytesOf(m - {k})
  }

  /** Every entry is charged for its key and value, and for something at least. */
  ghost predicate Charged(m: Entries) {
    forall k :: k in m ==> m[k].size >= 1 && m[k].size >= |k| + |m[k].item.value|
  }

  /** So the charge bounds the memory that keys and values take, and the number of entries. */
  lemma {:induction false} ChargeBounds(m: Entries)
    requires Charged(m)
    ensures BytesOf(m) <= SizeOf(m) && |m| <= SizeOf(m)
    decreases |m|
  {
    if m != map[] {
      var k :| k in m && BytesOf(m) == |k| + |m[k].item.value| + BytesOf(m - {k});
      ChargeBounds(m - {k});
      SizeRemove(m, k);
      assert |m - {k}| == |m| - 1 by { assert (m - {k}).Keys == m.Keys - {k}; }
    }
  }

  lemma StillCharged(m: Entries, key: Bytes)
    requires Charged(m)
    ensures Charged(m - {key}) && (key in m ==> Charged(m[key := m[key].(hot := false)]))
  {
  }

  function SaturatingSub(a: nat, b: nat): nat {
    if a < b then 0 else a - b
  }

  /** What an entry is charged. */
  function Charge(key: Bytes, item: Item, metaSize: nat): nat {
    var n := |key| + |item.value| + metaSize;
    if n == 0 then 1 else n
  }

  /** The slots whose key is still cached, in order. */
  function Kept(q: seq<Bytes>, m: Entries): seq<Bytes> {
    if q == [] then [] else (if q[0] in m then [q[0]] else []) + Kept(q[1..], m)
  }

  lemma {:induction false} KeptElements(q: seq<Bytes>, m: Entries)
    ensures forall k :: k in Kept(q, m) <==> k in q && k in m
  {
    if q != [] {
      KeptElements(q[1..], m);
    }
  }

  lemma {:induction false} KeptSnoc(q: seq<Bytes>, k: Bytes, m: Entries)
    ensures Kept(q + [k], m) == Kept(q, m) + if k in m then [k] else []
  {
    if q == [] {
      assert q + [k] == [k];
    } else {
      KeptSnoc(q[1..], k, m);
      assert (q + [k])[1..] == q[1..] + [k];
      assert (q + [k])[0] == q[0];
      assert Kept(q + [k], m) == (if q[0] in m then [q[0]] else []) + (Kept(q[1..], m) + if k in m then [k] else []);
    }
  }

  /** Every entry has a slot in one of the queues. */
  predicate Slotted(m: Entries, small: seq<Bytes>, main: seq<Bytes>) {
    forall k :: k in m ==> k in small || k in main
  }

  class MemCache {
    const maxBytes: nat
    const ghostMax: nat
    var entries: Entries
    var small: seq<Bytes>
    var main: seq<Bytes>
    var ghosts: set<Bytes>
    var ghostQueue: seq<Bytes>
    var currentBytes: nat
    var staleSlots: nat

    ghost predicate Valid()
      reads this
    {
      && currentBytes == SizeOf(entries) && Slotted(entries, small, main) && Charged(entries)
      && GhostsOk(ghosts, ghostQueue, ghostMax)
      && ghosts !! entries.Keys
    }

    ghost function Items(): map<Bytes, Item>
      reads this
    {
      ItemsOf(entries)
    }

    constructor (maxBytes: nat)
      ensures Valid() && Items() == map[] && this.maxBytes == maxBytes
      ensures ghostMax >= 64 && maxBytes < 640 * (ghostMax + 1) && (ghostMax > 64 ==> 640 * ghostMax <= maxBytes)
    {
      this.maxBytes := maxBytes;
      ghostMax := if maxBytes / 640 > 64 then maxBytes / 640 else 64;
      entries, small, main, ghosts, ghostQueue, currentBytes, staleSlots := map[], [], [], {}, [], 0, 0;
    }

    /** The cached item, unless it has expired; an expired one is dropped. */
    method Lookup(key: Bytes, now: U64) returns (r: Option<Item>)
      requires Valid()
      modifies this`entries, this`currentBytes
      ensures Valid()
      ensures var hit := Get(old(Items()), key);
              if hit.Some? && hit.value.Expired(now) then r == None && Items() == old(Items()) - {key}
              else r == hit && Items() == old(Items())
      ensures r.Some? ==> entries == old(entries)[key := old(entries)[key].(hot := true)]
      ensures currentBytes <= old(currentBytes) && Within(entries, old(entries))
    {
      hide SizeOf, BytesOf, GhostsOk;
      if key !in entries {
        return None;
      }
      var entry := entries[key];
      if entry.item.Expired(now) {
        SizeRemove(entries, key);
        assert entry.size <= currentBytes;
        entries := entries - {key};
        currentBytes := SaturatingSub(currentBytes, entry.size);
        return None;
      }
      SizeInsert(entries, key, entry.(hot := true));
      entries := entries[key := entry.(hot := true)];
      return Some(entry.item);
    }

    /** Remember an evicted key, forgetting the oldest ones as far as the bound demands. */
    method GhostInsert(key: Bytes) returns (ghost dropped: nat)
      requires GhostsOk(ghosts, ghostQueue, ghostMax) && key !in ghosts
      modifies this`ghosts, this`ghostQueue
      ensures GhostsOk(ghosts, ghostQueue, ghostMax)
      ensures dropped <= |old(ghostQueue)| && ghostQueue == old(ghostQueue)[dropped..] + [key]
      ensures ghosts == Forget(old(ghosts), old(ghostQueue)[..dropped]) + {key}
      ensures |old(ghosts)| < ghostMax ==> dropped == 0
    {
      hide Forget;
      dropped := 0;
      ForgetNone(ghosts);
      while |ghosts| >= ghostMax
        invariant dropped <= |old(ghostQueue)| && ghostQueue == old(ghostQueue)[dropped..]
        invariant ghosts == Forget(old(ghosts), old(ghostQueue)[..dropped])
        invariant forall k :: k in ghosts ==> k in ghostQueue
        invariant |ghosts| <= ghostMax && (|old(ghosts)| < ghostMax ==> dropped == 0)
        decreases |ghostQueue|
      {
        NonemptyQueue(ghosts, ghostQueue);
        var oldest := ghostQueue[0];
        ghostQueue := ghostQueue[1..];
        ghosts := ghosts - {oldest};
        ForgetNext(old(ghosts), old(ghostQueue), dropped);
        dropped := dropped + 1;
      }
      ghosts := ghosts + {key};
      ghostQueue := ghostQueue + [key];
    }

    /** Drain the small queue up to its first cold entry. The hot ones before it move to the
        main queue, cooled; the cold one is evicted and remembered as a ghost. */
    method EvictSmall() returns (evicted: bool, ghost i: nat)
      requires Valid()
      modifies this`entries, this`small, this`main, this`ghosts, this`ghostQueue, this`currentBytes
      ensures Valid()
      ensures evicted ==>
                && Victim(old(entries), old(small), i) && small == old(small)[i + 1..]
                && main == old(main) + Kept(old(small)[..i], old(entries))
                && entries == Cooled(old(entries), old(small)[..i]) - {old(small)[i]} && old(small)[i] in ghosts
      ensures !evicted ==>
                && Passed(old(entries), old(small)) && small == [] && main == old(main) + Kept(old(small), old(entries))
                && entries == Cooled(old(entries), old(small)) && ghosts == old(ghosts) && ghostQueue == old(ghostQueue)
    {
      hide SizeOf, BytesOf, Charged, GhostsOk, Cooled, Passed, Victim, Kept;
      i := 0;
      NonePassed(entries);
      ghost var m, q := entries, small;
      while small != []
        invariant i <= |q| && small == q[i..] && Passed(m, q[..i])
        invariant entries == Cooled(m, q[..i]) && main == old(main) + Kept(q[..i], m)
        invariant Valid() && ghosts == old(ghosts) && ghostQueue == old(ghostQueue)
        decreases |small|
      {
        PassOne(m, q, i);
        var key := small[0];
        StillCharged(entries, key);
        small := small[1..];
        if key in entries {
          var entry := entries[key];
          if entry.hot {
            CoolSize(entries, key);
            entries := entries[key := entry.(hot := false)];
            main := main + [key];
          } else {
            SizeRemove(entries, key);
            assert entry.size <= currentBytes;
            entries := entries - {key};
            ghost var dropped := GhostInsert(key);
            currentBytes := SaturatingSub(currentBytes, entry.size);
            return true, i;
          }
        }
        i := i + 1;
      }
      assert q[..i] == q;
      return false, i;
    }

    /** Rotate the main queue up to its first cold entry, giving each hot one another round. */
    method EvictMain() returns (evicted: bool, ghost i: nat)
      requires Valid() && small == []
      modifies this`entries, this`main, this`currentBytes
      ensures Valid()
      ensures if evicted then MainEvicts(old(entries), old(main), i, entries, main) else entries == map[] && old(entries) == map[]
    {
      hide SizeOf, BytesOf, Charged, GhostsOk, Cooled, Passed, Victim, Kept, MainEvicts;
      i := 0;
      NonePassed(entries);
      ghost var m, q := entries, main;
      while main != []
        invariant i <= |q| && main == q[i..] + Kept(q[..i], m) && Passed(m, q[..i])
        invariant entries == Cooled(m, q[..i]) && Valid()
        decreases |q| - i
      {
        MainStep(m, q, i, entries, main);
        var key := main[0];
        StillCharged(entries, key);
        main := main[1..];
        if key in entries {
          var entry := entries[key];
          if entry.hot {
            CoolSize(entries, key);
            entries := entries[key := entry.(hot := false)];
            main := main + [key];
          } else {
            SizeRemove(entries, key);
            assert entry.size <= currentBytes;
            entries := entries - {key};
            currentBytes := SaturatingSub(currentBytes, entry.size);
            return true, i;
          }
        }
        i := i + 1;
      }
      assert entries == map[];
      CooledKeys(m, q[..i]);
      return false, i;
    }

    /** Evict one entry: the first cold one of the small queue, or else one of the main
        queue; none only when nothing is cached. */
    method EvictOne() returns (evicted: bool, ghost fromSmall: bool, ghost i: nat)
      requires Valid()
      modifies this`entries, this`small, this`main, this`ghosts, this`ghostQueue, this`currentBytes
      ensures Valid()
      ensures if evicted then Evicted(old(entries), entries) else entries == map[] && old(entries) == map[]
      ensures evicted && fromSmall ==> Victim(old(entries), old(small), i) && old(small)[i] in ghosts && old(small)[i] !in entries
      ensures evicted && !fromSmall ==>
                && Passed(old(entries), old(small)) && ghosts == old(ghosts)
                && MainEvicts(Cooled(old(entries), old(small)), old(main) + Kept(old(small), old(entries)), i, entries, main)
    {
      hide SizeOf, BytesOf, GhostsOk, Passed, Kept, Slotted;
      ghost var m, q := entries, small;
      evicted, i := EvictSmall();
      fromSmall := evicted;
      if evicted {
        OneGone(m, q[..i], q[i], entries);
      } else {
        ghost var m1, q1 := entries, main;
        evicted, i := EvictMain();
        if evicted {
          MainGone(m1, q1, i, entries, main);
          StillEvicted(m, q, m1, entries);
        } else {
          CooledKeys(m, q);
        }
      }
    }

    /** Evict until within budget, which always succeeds. */
    method EvictToLimit()
      requires Valid()
      modifies this`entries, this`small, this`main, this`ghosts, this`ghostQueue, this`currentBytes
      ensures Valid() && currentBytes <= maxBytes
      ensures Within(entries, old(entries))
      ensures if old(currentBytes) <= maxBytes then unchanged(this) else LastNeeded(old(entries), entries, maxBytes)
    {
      hide GhostsOk, Evicted, Cooled, Passed, Victim, Kept, Slotted, MainEvicts, LastNeeded, BytesOf, Charged;
      while currentBytes > maxBytes
        invariant Valid() && Within(entries, old(entries))
        invariant if old(currentBytes) <= maxBytes then unchanged(this) else entries == old(entries) || LastNeeded(old(entries), entries, maxBytes)
        decreases |entries|
      {
        ghost var before := entries;
        var evicted;
        ghost var fromSmall, i;
        evicted, fromSmall, i := EvictOne();
        if !evicted {
          break;
        }
        EvictedWithin(before, entries);
        OneNeeded(old(entries), before, entries, maxBytes);
        hide SizeOf;
      }
    }
  
    /** Overwrite an entry that is there; say whether it was. */
    method TryUpdate(key: Bytes, item: Item, metaSize: nat) returns (found: bool)
      requires Valid()
      modifies this
      ensures Valid() && (found ==> currentBytes <= maxBytes && BytesOf(entries) <= maxBytes) && found == (key in old(entries))
      ensures if found then Stored(old(entries), entries, key, item, metaSize) else entries == old(entries)
      ensures old(currentBytes) + Charge(key, item, metaSize) <= maxBytes && found ==>
                entries == old(entries)[key := CacheEntry(item, true, Charge(key, item, metaSize))]
    {
      hide SizeOf, BytesOf, GhostsOk, Slotted;
      if key !in entries {
        return false;
      }
      Overwrite(key, item, metaSize);
      return true;
    }

    /** Replace the item of a cached key and evict back into budget. */
    method Overwrite(key: Bytes, item: Item, metaSize: nat)
      requires Valid() && key in entries
      modifies this
      ensures Valid() && currentBytes <= maxBytes && BytesOf(entries) <= maxBytes
      ensures Stored(old(entries), entries, key, item, metaSize)
      ensures old(currentBytes) + Charge(key, item, metaSize) <= maxBytes ==>
                entries == old(entries)[key := CacheEntry(item, true, Charge(key, item, metaSize))]
    {
      hide SizeOf, BytesOf, GhostsOk;
      var e := CacheEntry(item, true, Charge(key, item, metaSize));
      SizeInsert(entries, key, e);
      assert entries[key].size <= currentBytes;
      currentBytes := SaturatingSub(currentBytes, entries[key].size) + e.size;
      entries := entries[key := e];
      EvictToLimit();
      ChargeBounds(entries);
    }

    /** Cache an item: a key on the ghost list enters the main queue, any other new key the
        small one. */
    method Insert(key: Bytes, item: Item, metaSize: nat)
      requires Valid()
      modifies this
      ensures Valid() && currentBytes <= maxBytes && BytesOf(entries) <= maxBytes
      ensures Stored(old(entries), entries, key, item, metaSize)
      ensures old(currentBytes) + Charge(key, item, metaSize) <= maxBytes ==>
                entries == old(entries)[key := CacheEntry(item, key in old(entries), Charge(key, item, metaSize))]
      ensures old(currentBytes) + Charge(key, item, metaSize) <= maxBytes && key !in old(entries) ==>
                if key in old(ghosts) then main == old(main) + [key] && small == old(small) && ghosts == old(ghosts) - {key}
                else small == old(small) + [key] && main == old(main) && ghosts == old(ghosts)
    {
      hide SizeOf, BytesOf, GhostsOk, Slotted, ItemsOf, Stored, Within;
      if key in entries {
        Overwrite(key, item, metaSize);
        return;
      }
      var e := CacheEntry(item, false, Charge(key, item, metaSize));
      SizeInsert(entries, key, e);
      Inserted(entries, small, main, key, e);
      ghost var m := entries;
      entries := entries[key := e];
      currentBytes := currentBytes + e.size;
      if key in ghosts {
        FewerGhosts(ghosts, ghostQueue, ghostMax, key);
        ghosts := ghosts - {key};
        main := main + [key];
      } else {
        small := small + [key];
      }
      EvictToLimit();
      ChargeBounds(entries);
      WithinStored(m, entries, key, e, metaSize);
    }

    /** Drop the slots of keys that are no longer cached. */
    method Retain(q: seq<Bytes>) returns (kept: seq<Bytes>)
      ensures kept == Kept(q, entries)
    {
      kept := [];
      for i := 0 to |q|
        invariant kept == Kept(q[..i], entries)
      {
        assert q[..i + 1] == q[..i] + [q[i]];
        KeptSnoc(q[..i], q[i], entries);
        if q[i] in entries {
          kept := kept + [q[i]];
        }
      }
      assert q[..|q|] == q;
    }

    /** Compact the queues once stale slots outnumber half of them. */
    method NoteStale(n: nat)
      requires Valid()
      modifies this`small, this`main, this`staleSlots
      ensures Valid()
      ensures if old(staleSlots) + n > (|old(small)| + |old(main)|) / 2
              then staleSlots == 0 && small == Kept(old(small), entries) && main == Kept(old(main), entries)
              else staleSlots == old(staleSlots) + n && small == old(small) && main == old(main)
      ensures staleSlots <= (|small| + |main|) / 2
    {
      hide SizeOf, BytesOf, GhostsOk;
      staleSlots := staleSlots + n;
      if staleSlots > (|small| + |main|) / 2 {
        KeptElements(small, entries);
        KeptElements(main, entries);
        small := Retain(small);
        main := Retain(main);
        staleSlots := 0;
      }
    }

    method Remove(key: Bytes)
      requires Valid()
      modifies this
      ensures Valid() && entries == old(entries) - {key} && currentBytes <= old(currentBytes)
    {
      hide SizeOf, BytesOf, GhostsOk;
      if key in entries {
        SizeRemove(entries, key);
        assert entries[key].size <= currentBytes;
        currentBytes := SaturatingSub(currentBytes, entries[key].size);
        entries := entries - {key};
        NoteStale(1);
      } else {
        assert entries - {key} == entries;
      }
    }

    /** Drop the entries of `gone` in one pass. */
    method DropAll(gone: set<Bytes>)
      requires Valid() && gone <= entries.Keys
      modifies this
      ensures Valid() && entries == old(entries) - gone && currentBytes <= old(currentBytes)
    {
      hide SizeOf, BytesOf, GhostsOk;
      var freed: nat, rest := 0, gone;
      while rest != {}
        invariant rest <= gone && entries == old(entries) - (gone - rest)
        invariant SizeOf(old(entries)) == SizeOf(entries) + freed
        invariant small == old(small) && main == old(main) && ghosts == old(ghosts) && ghostQueue == old(ghostQueue)
                  && currentBytes == old(currentBytes)
        decreases |rest|
      {
        var k :| k in rest;
        rest := rest - {k};
        SizeRemove(entries, k);
        freed := freed + entries[k].size;
        entries := entries - {k};
      }
      currentBytes := SaturatingSub(currentBytes, freed);
      if gone != {} {
        NoteStale(|gone|);
      }
    }

    method RemoveByPrefix(prefix: Bytes)
      requires Valid()
      modifies this
      ensures Valid() && currentBytes <= old(currentBytes)
      ensures entries == map k | k in old(entries) && !(prefix <= k) :: old(entries)[k]
    {
      hide SizeOf, BytesOf, GhostsOk, Slotted;
      DropAll(set k | k in entries && prefix <= k);
    }

    /** Drop every expired entry and count them. */
    method SweepExpired(now: U64) returns (freed: nat)
      requires Valid()
      modifies this
      ensures Valid() && currentBytes <= old(currentBytes) && freed == |old(entries)| - |entries|
      ensures entries == map k | k in old(entries) && !old(entries)[k].item.Expired(now) :: old(entries)[k]
    {
      hide SizeOf, BytesOf, GhostsOk, Slotted;
      var gone := set k | k in entries && entries[k].item.Expired(now);
      assert |entries.Keys - gone| == |entries| - |gone|;
      freed := |gone|;
      DropAll(gone);
      assert entries.Keys == old(entries).Keys - gone;
    }
  }

  /** Same keys and items; only access bits may differ. */
  predicate SameItems(m: Entries, m': Entries) {
    m.Keys == m'.Keys && forall k :: k in m ==> m[k].item == m'[k].item && m[k].size == m'[k].size
  }

  /** All of `m'` was in `m`. */
  predicate Within(m': Entries, m: Entries) {
    forall k :: k in m' ==> k in m && m'[k].item == m[k].item && m'[k].size == m[k].size
  }

  /** `key` holds `item` unless it was evicted, charged for all its bytes, and everything else
      was there before. */
  predicate Stored(m: Entries, m': Entries, key: Bytes, item: Item, metaSize: nat) {
    forall k :: k in m' ==>
      if k == key then
        && m'[k].item == item && m'[k].size >= |key| + |item.value| + metaSize
        && (m'[k].size > |key| + |item.value| + metaSize ==> m'[k].size == 1)
      else k in m && m'[k].item == m[k].item && m'[k].size == m[k].size
  }

  lemma Inserted(m: Entries, small: seq<Bytes>, main: seq<Bytes>, key: Bytes, e: CacheEntry)
    requires Slotted(m, small, main)
    ensures Slotted(m[key := e], small + [key], main) && Slotted(m[key := e], small, main + [key])
  {
  }

  lemma WithinStored(m: Entries, m': Entries, key: Bytes, e: CacheEntry, metaSize: nat)
    requires Within(m', m[key := e]) && e.size == Charge(key, e.item, metaSize)
    ensures Stored(m, m', key, e.item, metaSize)
  {
  }

  lemma FewerGhosts(ghosts: set<Bytes>, queue: seq<Bytes>, ghostMax: nat, key: Bytes)
    requires GhostsOk(ghosts, queue, ghostMax)
    ensures GhostsOk(ghosts - {key}, queue, ghostMax)
  {
  }

  /** The last entry evicted had to go: the cache was over budget with it. */
  ghost predicate LastNeeded(m: Entries, m': Entries, maxBytes: nat) {
    exists before :: Within(before, m) && Evicted(before, m') && SizeOf(before) > maxBytes
  }

  lemma OneNeeded(m: Entries, before: Entries, m': Entries, maxBytes: nat)
    requires Within(before, m) && Evicted(before, m') && SizeOf(before) > maxBytes
    ensures LastNeeded(m, m', maxBytes)
  {
  }

  /** Exactly one entry is gone. */
  predicate Evicted(m: Entries, m': Entries) {
    exists k :: k in m && SameItems(m - {k}, m')
  }

  /** The entries with the access bits of `ks` cleared. */
  function Cooled(m: Entries, ks: seq<Bytes>): Entries {
    map k | k in m :: if k in ks then m[k].(hot := false) else m[k]
  }

  /** Every cached key of these slots is hot and met for the first time. */
  predicate Passed(m: Entries, q: seq<Bytes>) {
    forall j :: 0 <= j < |q| && q[j] in m ==> m[q[j]].hot && q[j] !in q[..j]
  }

  /** The first slot whose entry is cold, or was cooled through an earlier slot. */
  predicate Victim(m: Entries, q: seq<Bytes>, i: nat) {
    i < |q| && Passed(m, q[..i]) && q[i] in m && (m[q[i]].hot ==> q[i] in q[..i])
  }

  /** The main queue loses its first cold entry, or, when all were hot, the first one after a
      full round; the hot ones passed over go to the back. */
  predicate MainEvicts(m: Entries, q: seq<Bytes>, i: nat, m': Entries, q': seq<Bytes>) {
    if i < |q| then Victim(m, q, i) && q' == q[i + 1..] + Kept(q[..i], m) && m' == Cooled(m, q[..i]) - {q[i]}
    else Passed(m, q) && Kept(q, m) != [] && q' == Kept(q, m)[1..] && m' == Cooled(m, q) - {Kept(q, m)[0]}
  }

  ghost function Forget(ghosts: set<Bytes>, oldest: seq<Bytes>): set<Bytes> {
    set k | k in ghosts && k !in oldest
  }

  lemma NonePassed(m: Entries)
    ensures forall q: seq<Bytes> :: q == [] ==> Passed(m, q) && Cooled(m, q) == m && Kept(q, m) == []
  {
  }

  /** What looking at one more slot does. */
  lemma PassOne(m: Entries, q: seq<Bytes>, i: nat)
    requires i <= |q| && Passed(m, q[..i])
    ensures i < |q| ==>
              var k, m1 := q[i], Cooled(m, q[..i]);
              && (k in m1 <==> k in m)
              && Kept(q[..i + 1], m) == Kept(q[..i], m) + (if k in m then [k] else [])
              && (k !in m ==> Passed(m, q[..i + 1]) && Cooled(m, q[..i + 1]) == m1)
              && (k in m && m1[k].hot ==> Passed(m, q[..i + 1]) && Cooled(m, q[..i + 1]) == m1[k := m1[k].(hot := false)])
              && (k in m && !m1[k].hot ==> Victim(m, q, i))
    ensures i == |q| && Kept(q, m) != [] ==>
              var k := Kept(q, m)[0];
              k in Cooled(m, q) && !Cooled(m, q)[k].hot
  {
    if i < |q| {
      assert q[..i + 1] == q[..i] + [q[i]];
      KeptSnoc(q[..i], q[i], m);
      if q[i] !in m || Cooled(m, q[..i])[q[i]].hot {
        PassedNext(m, q, i);
      }
    } else {
      assert q[..i] == q;
      KeptElements(q, m);
      assert Kept(q, m) != [] ==> Kept(q, m)[0] in Kept(q, m);
    }
  }

  lemma PassedNext(m: Entries, q: seq<Bytes>, i: nat)
    requires i < |q| && Passed(m, q[..i]) && (q[i] in m ==> m[q[i]].hot && q[i] !in q[..i])
    ensures Passed(m, q[..i + 1])
  {
    var r := q[..i + 1];
    forall j | 0 <= j < |r| && r[j] in m ensures m[r[j]].hot && r[j] !in r[..j] {
      assert r[..j] == q[..j];
      if j < i {
        assert q[..i][j] == q[j] && q[..i][..j] == q[..j];
      }
    }
  }

  /** The main queue after `i` slots have been looked at, one more taken off its front. */
  lemma Rotated(q: seq<Bytes>, i: nat, kept: seq<Bytes>)
    requires i <= |q| && q[i..] + kept != []
    ensures i < |q| ==> (q[i..] + kept)[0] == q[i] && (q[i..] + kept)[1..] == q[i + 1..] + kept
    ensures i == |q| ==> q[i..] + kept == kept && q[..i] == q
    ensures forall k :: i < |q| ==> q[i + 1..] + kept + [k] == q[i + 1..] + (kept + [k])
  {
  }

  lemma ForgetNone(ghosts: set<Bytes>)
    ensures forall q: seq<Bytes> :: q == [] ==> Forget(ghosts, q) == ghosts
  {
  }

  lemma ForgetNext(ghosts: set<Bytes>, q: seq<Bytes>, d: nat)
    requires d < |q|
    ensures Forget(ghosts, q[..d + 1]) == Forget(ghosts, q[..d]) - {q[d]}
  {
    assert q[..d + 1] == q[..d] + [q[d]];
  }

  /** What taking one slot off the main queue comes to. */
  lemma MainStep(m: Entries, q: seq<Bytes>, i: nat, e: Entries, main: seq<Bytes>)
    requires i <= |q| && Passed(m, q[..i]) && e == Cooled(m, q[..i])
    requires main == q[i..] + Kept(q[..i], m) && main != []
    ensures var key := main[0];
            && (key !in e ==> i < |q| && Passed(m, q[..i + 1]) && e == Cooled(m, q[..i + 1]) && main[1..] == q[i + 1..] + Kept(q[..i + 1], m))
            && (key in e && e[key].hot ==>
                  && i < |q| && Passed(m, q[..i + 1]) && e[key := e[key].(hot := false)] == Cooled(m, q[..i + 1])
                  && main[1..] + [key] == q[i + 1..] + Kept(q[..i + 1], m))
            && (key in e && !e[key].hot ==> MainEvicts(m, q, i, e - {key}, main[1..]))
  {
    hide Cooled, Passed, Victim, Kept;
    PassOne(m, q, i);
    Rotated(q, i, Kept(q[..i], m));
    if i < |q| {
      assert Kept(q[..i], m) + [] == Kept(q[..i], m);
    }
  }

  lemma CoolSize(m: Entries, key: Bytes)
    requires key in m
    ensures SizeOf(m[key := m[key].(hot := false)]) == SizeOf(m)
  {
    SizeInsert(m, key, m[key].(hot := false));
  }

  lemma CooledKeys(m: Entries, ks: seq<Bytes>)
    ensures Cooled(m, ks).Keys == m.Keys && SameItems(m, Cooled(m, ks)) && (Cooled(m, ks) == map[] ==> m == map[])
  {
    assert Cooled(m, ks).Keys == m.Keys;
    if Cooled(m, ks) == map[] {
      assert m.Keys == {};
    }
  }

  lemma OneGone(m: Entries, ks: seq<Bytes>, key: Bytes, m': Entries)
    requires key in m && m' == Cooled(m, ks) - {key}
    ensures Evicted(m, m')
  {
    assert SameItems(m - {key}, m');
  }

  lemma MainGone(m: Entries, q: seq<Bytes>, i: nat, m': Entries, q': seq<Bytes>)
    requires MainEvicts(m, q, i, m', q')
    ensures Evicted(m, m')
  {
    if i < |q| {
      OneGone(m, q[..i], q[i], m');
    } else {
      KeptElements(q, m);
      assert Kept(q, m)[0] in Kept(q, m);
      OneGone(m, q, Kept(q, m)[0], m');
    }
  }

  lemma StillEvicted(m: Entries, ks: seq<Bytes>, m1: Entries, m': Entries)
    requires m1 == Cooled(m, ks) && Evicted(m1, m')
    ensures Evicted(m, m')
  {
    var k :| k in m1 && SameItems(m1 - {k}, m');
    assert SameItems(m - {k}, m');
  }

  lemma EvictedWithin(m: Entries, m': Entries)
    requires Evicted(m, m')
    ensures Within(m', m) && |m'| < |m|
  {
    var k :| k in m && SameItems(m - {k}, m');
    assert m'.Keys == m.Keys - {k};
  }

  ghost predicate GhostsOk(ghosts: set<Bytes>, queue: seq<Bytes>, ghostMax: nat) {
    && ghostMax >= 64 && |ghosts| <= ghostMax
    && forall k :: k in ghosts ==> k in queue
  }

  lemma NonemptyQueue(ghosts: set<Bytes>, queue: seq<Bytes>)
    requires ghosts != {} && forall k :: k in ghosts ==> k in queue
    ensures queue != []
  {
    var k :| k in ghosts;
  }
}
