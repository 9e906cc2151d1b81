/** Commands on many keys over many shards: bucket the keys, run each bucket on its shard,
    gather. The reference is the same command on one store that holds everything. */
module FanOut {
  import opened Types
  import opened Cache
  import opened Store

  /** The elements that satisfy `p`, in order. */
  function Select<T>(xs: seq<T>, p: T -> bool): seq<T> {
    if xs == [] then []
    else Select(xs[..|xs| - 1], p) + if p(xs[|xs| - 1]) then [xs[|xs| - 1]] else []
  }

  /** What goes to shard `s`. */
  function On<T>(shardOf: T -> nat, s: nat): T -> bool {
    x => shardOf(x) == s
  }

  lemma {:induction false} SelectMembers<T>(xs: seq<T>, p: T -> bool)
    ensures forall x :: x in Select(xs, p) <==> x in xs && p(x)
  {
    if xs != [] {
      var n := |xs| - 1;
      SelectMembers(xs[..n], p);
      assert xs == xs[..n] + [xs[n]];
    }
  }

  lemma {:induction false} SelectAll<T>(xs: seq<T>, p: T -> bool)
    requires forall i :: 0 <= i < |xs| ==> p(xs[i])
    ensures Select(xs, p) == xs
  {
    if xs != [] {
      SelectAll(xs[..|xs| - 1], p);
      assert xs == xs[..|xs| - 1] + [xs[|xs| - 1]];
    }
  }

  lemma {:induction false} SelectNone<T>(xs: seq<T>, p: T -> bool)
    requires forall i :: 0 <= i < |xs| ==> !p(xs[i])
    ensures Select(xs, p) == []
  {
    if xs != [] {
      SelectNone(xs[..|xs| - 1], p);
    }
  }

  lemma SelectNext<T>(xs: seq<T>, p: T -> bool, i: nat)
    requires i < |xs|
    ensures Select(xs[..i + 1], p) == Select(xs[..i], p) + if p(xs[i]) then [xs[i]] else []
  {
    assert xs[..i + 1][..i] == xs[..i];
  }

  /** One bucket per shard, each in the original order. */
  method BucketByShard<T>(xs: seq<T>, n: nat, shardOf: T -> nat) returns (buckets: seq<seq<T>>)
    requires forall x :: shardOf(x) < n
    ensures |buckets| == n && forall s :: 0 <= s < n ==> buckets[s] == Select(xs, On(shardOf, s))
  {
    buckets := seq(n, _ => []);
    for i := 0 to |xs|
      invariant |buckets| == n && forall s :: 0 <= s < n ==> buckets[s] == Select(xs[..i], On(shardOf, s))
    {
      forall s | 0 <= s < n ensures Select(xs[..i + 1], On(shardOf, s)) == Select(xs[..i], On(shardOf, s)) + if shardOf(xs[i]) == s then [xs[i]] else [] {
        SelectNext(xs, On(shardOf, s), i);
      }
      var t := shardOf(xs[i]);
      buckets := buckets[t := buckets[t] + [xs[i]]];
    }
    assert xs[..|xs|] == xs;
  }

  /** What clients can compare across shards: everything but the revision. */
  datatype Content = Content(value: Bytes, expires: Option<U64>, meta: Option<Bytes>)

  function ContentOf(item: Option<Item>): Option<Content> {
    if item.None? then None else Some(Content(item.value.value, item.value.expires, item.value.meta))
  }

  type Route = Bytes -> nat

  /** The shards together hold what the one store holds. */
  ghost predicate Unified(shards: seq<Db>, route: Route, db: Db) {
    forall k :: route(k) < |shards| && ContentOf(Get(shards[route(k)].items, k)) == ContentOf(Get(db.items, k))
  }

  lemma UnifiedLive(shards: seq<Db>, route: Route, db: Db, k: Bytes, now: U64)
    requires Unified(shards, route, db)
    ensures route(k) < |shards| && ContentOf(Live(shards[route(k)], k, now)) == ContentOf(Live(db, k, now))
  {
    assert ContentOf(Get(shards[route(k)].items, k)) == ContentOf(Get(db.items, k));
  }

  /** The value the last pair for `k` leaves, or what was there. */
  function LastPair(pairs: seq<(Bytes, Bytes)>, k: Bytes, was: Option<Content>): Option<Content> {
    if pairs == [] then was
    else if pairs[|pairs| - 1].0 == k then Some(Content(pairs[|pairs| - 1].1, None, None))
    else LastPair(pairs[..|pairs| - 1], k, was)
  }

  lemma {:induction false} PutAllAt(db: Db, pairs: seq<(Bytes, Bytes)>, clock: nat -> nat, k: Bytes)
    ensures ContentOf(Get(PutAll(db, pairs, clock).items, k)) == LastPair(pairs, k, ContentOf(Get(db.items, k)))
  {
    if pairs != [] {
      PutAllAt(db, pairs[..|pairs| - 1], clock, k);
    }
  }

  function PairShard(route: Route): ((Bytes, Bytes)) -> nat {
    (p: (Bytes, Bytes)) => route(p.0)
  }

  lemma LastPairSnoc(pairs: seq<(Bytes, Bytes)>, p: (Bytes, Bytes), k: Bytes, was: Option<Content>)
    ensures LastPair(pairs + [p], k, was) == if p.0 == k then Some(Content(p.1, None, None)) else LastPair(pairs, k, was)
  {
    assert (pairs + [p])[..|pairs|] == pairs;
  }

  lemma {:induction false} LastPairOnShard(pairs: seq<(Bytes, Bytes)>, route: Route, k: Bytes, was: Option<Content>)
    ensures LastPair(Select(pairs, On(PairShard(route), route(k))), k, was) == LastPair(pairs, k, was)
  {
    if pairs != [] {
      var n := |pairs| - 1;
      var p := On(PairShard(route), route(k));
      LastPairOnShard(pairs[..n], route, k, was);
      assert p(pairs[n]) <==> route(pairs[n].0) == route(k);
      LastPairSnoc(Select(pairs[..n], p), pairs[n], k, was);
      assert p(pairs[n]) || pairs[n].0 != k;
      assert Select(pairs[..n], p) + [] == Select(pairs[..n], p);
    }
  }

  /** Bucketed MSET leaves the same map as the whole list applied in order to one store. */
  lemma MSetUnified(shards: seq<Db>, shards': seq<Db>, route: Route, db: Db, pairs: seq<(Bytes, Bytes)>,
                    clocks: nat -> nat -> nat, clock: nat -> nat)
    requires Unified(shards, route, db) && |shards'| == |shards|
    requires forall s :: 0 <= s < |shards| ==> shards'[s] == PutAll(shards[s], Select(pairs, On(PairShard(route), s)), clocks(s))
    ensures Unified(shards', route, PutAll(db, pairs, clock))
  {
    hide PutAll, LastPair, Select, ContentOf;
    forall k
      ensures route(k) < |shards'| && ContentOf(Get(shards'[route(k)].items, k)) == ContentOf(Get(PutAll(db, pairs, clock).items, k))
    {
      var s := route(k);
      assert s < |shards| && ContentOf(Get(shards[s].items, k)) == ContentOf(Get(db.items, k));
      PutAllAt(shards[s], Select(pairs, On(PairShard(route), s)), clocks(s), k);
      PutAllAt(db, pairs, clock, k);
      LastPairOnShard(pairs, route, k, ContentOf(Get(db.items, k)));
    }
  }

  /** Bucketed DEL deletes the same keys as the whole list. */
  lemma DelUnified(shards: seq<Db>, shards': seq<Db>, route: Route, db: Db, ks: seq<Bytes>,
                   clocks: nat -> nat -> nat, clock: nat -> nat)
    requires Unified(shards, route, db) && |shards'| == |shards|
    requires forall s :: 0 <= s < |shards| ==> shards'[s] == BuryAll(shards[s], Select(ks, On(route, s)), clocks(s))
    ensures Unified(shards', route, BuryAll(db, ks, clock))
  {
    hide BuryAll, Select, ContentOf;
    forall k
      ensures route(k) < |shards'| && ContentOf(Get(shards'[route(k)].items, k)) == ContentOf(Get(BuryAll(db, ks, clock).items, k))
    {
      var s := route(k);
      assert s < |shards| && ContentOf(Get(shards[s].items, k)) == ContentOf(Get(db.items, k));
      SelectMembers(ks, On(route, s));
      BuryAllItems(shards[s], Select(ks, On(route, s)), clocks(s));
      BuryAllItems(db, ks, clock);
    }
  }

  /** The live keys of the list on the first `m` shards. */
  ghost function LiveBelow(db: Db, route: Route, ks: seq<Bytes>, now: U64, m: nat): set<Bytes> {
    set k | k in ks && Live(db, k, now).Some? && route(k) < m
  }

  lemma LiveBelowNext(shards: seq<Db>, route: Route, db: Db, ks: seq<Bytes>, now: U64, m: nat)
    requires Unified(shards, route, db) && m < |shards|
    ensures |LiveBelow(db, route, ks, now, m + 1)| == |LiveBelow(db, route, ks, now, m)| + |LiveKeys(shards[m], Select(ks, On(route, m)), now)|
  {
    hide Select, Live;
    var on := LiveKeys(shards[m], Select(ks, On(route, m)), now);
    SelectMembers(ks, On(route, m));
    forall k ensures k in on <==> k in ks && Live(db, k, now).Some? && route(k) == m {
      UnifiedLive(shards, route, db, k, now);
    }
    assert LiveBelow(db, route, ks, now, m + 1) == LiveBelow(db, route, ks, now, m) + on;
  }

  /** Running totals over the shards count each live key of the list once. */
  function CountOn(shards: seq<Db>, route: Route, ks: seq<Bytes>, now: U64, m: nat): nat
    requires m <= |shards|
  {
    if m == 0 then 0 else CountOn(shards, route, ks, now, m - 1) + |LiveKeys(shards[m - 1], Select(ks, On(route, m - 1)), now)|
  }

  lemma {:induction false} CountBelow(shards: seq<Db>, route: Route, db: Db, ks: seq<Bytes>, now: U64, m: nat)
    requires Unified(shards, route, db) && m <= |shards|
    ensures CountOn(shards, route, ks, now, m) == |LiveBelow(db, route, ks, now, m)|
  {
    if m == 0 {
      assert LiveBelow(db, route, ks, now, 0) == {};
    } else {
      hide Unified, LiveBelow, LiveKeys;
      CountBelow(shards, route, db, ks, now, m - 1);
      LiveBelowNext(shards, route, db, ks, now, m - 1);
    }
  }

  /** The counts of a bucketed DEL add up to the count of the whole list on one store. */
  lemma DelCount(shards: seq<Db>, route: Route, db: Db, ks: seq<Bytes>, now: U64)
    requires Unified(shards, route, db)
    ensures CountOn(shards, route, ks, now, |shards|) == |LiveKeys(db, ks, now)|
  {
    CountBelow(shards, route, db, ks, now, |shards|);
    forall k ensures route(k) < |shards| {
      UnifiedLive(shards, route, db, k, now);
    }
    assert LiveBelow(db, route, ks, now, |shards|) == LiveKeys(db, ks, now);
  }

  lemma {:induction false} TouchAllAt(db: Db, ks: seq<Bytes>, now: U64, clock: nat -> nat, k: Bytes)
    ensures Get(TouchAll(db, ks, now, clock).items, k) == if k in ks && Expired(db, k, now) then None else Get(db.items, k)
  {
    if ks != [] {
      var n := |ks| - 1;
      TouchAllAt(db, ks[..n], now, clock, k);
      assert ks == ks[..n] + [ks[n]];
    }
  }

  /** The lazy deletes of a bucketed MGET are those of the whole list. */
  lemma MGetUnified(shards: seq<Db>, shards': seq<Db>, route: Route, db: Db, ks: seq<Bytes>, now: U64,
                    clocks: nat -> nat -> nat, clock: nat -> nat)
    requires Unified(shards, route, db) && |shards'| == |shards|
    requires forall s :: 0 <= s < |shards| ==> shards'[s] == TouchAll(shards[s], Select(ks, On(route, s)), now, clocks(s))
    ensures Unified(shards', route, TouchAll(db, ks, now, clock))
  {
    hide TouchAll, Select, ContentOf;
    forall k
      ensures route(k) < |shards'| && ContentOf(Get(shards'[route(k)].items, k)) == ContentOf(Get(TouchAll(db, ks, now, clock).items, k))
    {
      var s := route(k);
      assert s < |shards| && ContentOf(Get(shards[s].items, k)) == ContentOf(Get(db.items, k));
      SelectMembers(ks, On(route, s));
      TouchAllAt(shards[s], Select(ks, On(route, s)), now, clocks(s), k);
      TouchAllAt(db, ks, now, clock, k);
      SameExpiry(shards[s], db, k, now);
    }
  }

  lemma SameExpiry(a: Db, b: Db, k: Bytes, now: U64)
    requires ContentOf(Get(a.items, k)) == ContentOf(Get(b.items, k))
    ensures Expired(a, k, now) == Expired(b, k, now)
  {
  }

  function Enumerate(keys: seq<Bytes>): (ps: seq<(nat, Bytes)>)
    ensures |ps| == |keys| && forall i :: 0 <= i < |keys| ==> ps[i] == (i, keys[i])
  {
    seq(|keys|, i requires 0 <= i < |keys| => (i, keys[i]))
  }

  function IndexShard(route: Route): ((nat, Bytes)) -> nat {
    (p: (nat, Bytes)) => route(p.1)
  }

  function KeysOf(bucket: seq<(nat, Bytes)>): (ks: seq<Bytes>)
    ensures |ks| == |bucket| && forall i :: 0 <= i < |bucket| ==> ks[i] == bucket[i].1
  {
    seq(|bucket|, i requires 0 <= i < |bucket| => bucket[i].1)
  }

  lemma {:induction false} KeysOfSelect(keys: seq<Bytes>, route: Route, s: nat)
    ensures KeysOf(Select(Enumerate(keys), On(IndexShard(route), s))) == Select(keys, On(route, s))
  {
    if keys != [] {
      var n := |keys| - 1;
      KeysOfSelect(keys[..n], route, s);
      assert Enumerate(keys)[..n] == Enumerate(keys[..n]);
    }
  }

  /** The remote half of a bulk read: each index goes back with its entry. */
  method HandleMGet(db: Db, bucket: seq<(nat, Bytes)>, now: U64, clock: nat -> nat)
    returns (reply: seq<(nat, Option<Item>)>, db': Db)
    ensures Answers(reply, db, bucket, now)
    ensures db' == TouchAll(db, KeysOf(bucket), now, clock)
  {
    reply := seq(|bucket|, i requires 0 <= i < |bucket| => (bucket[i].0, Live(db, bucket[i].1, now)));
    db' := TouchAll(db, KeysOf(bucket), now, clock);
  }

  /** Results for the keys of the shards in `answered`, nothing yet for the others. */
  ghost predicate Filled(results: seq<Option<Item>>, shards: seq<Db>, route: Route, keys: seq<Bytes>, now: U64, answered: set<nat>)
    requires forall k :: route(k) < |shards|
  {
    && |results| == |keys|
    && forall i :: 0 <= i < |keys| ==>
         results[i] == if route(keys[i]) in answered then Live(shards[route(keys[i])], keys[i], now) else None
  }

  ghost predicate Answers(reply: seq<(nat, Option<Item>)>, db: Db, bucket: seq<(nat, Bytes)>, now: U64) {
    |reply| == |bucket| && forall i :: 0 <= i < |bucket| ==> reply[i] == (bucket[i].0, Live(db, bucket[i].1, now))
  }

  /** Put one shard's answers where their keys were in the request. */
  method Gather(results: seq<Option<Item>>, reply: seq<(nat, Option<Item>)>, ghost shards: seq<Db>, ghost route: Route,
                ghost keys: seq<Bytes>, ghost now: U64, ghost answered: set<nat>, ghost s: nat)
    returns (out: seq<Option<Item>>)
    requires (forall k :: route(k) < |shards|) && s < |shards|
    requires Filled(results, shards, route, keys, now, answered)
    requires Answers(reply, shards[s], Select(Enumerate(keys), On(IndexShard(route), s)), now)
    ensures Filled(out, shards, route, keys, now, answered + {s})
  {
    hide Live, Select;
    ghost var bucket := Select(Enumerate(keys), On(IndexShard(route), s));
    BucketIndices(keys, route, s);
    out := results;
    for i := 0 to |reply|
      invariant |out| == |keys|
      invariant forall j :: 0 <= j < |keys| ==>
                  out[j] == if (j, keys[j]) in bucket[..i] then Live(shards[s], keys[j], now) else results[j]
    {
      assert bucket[i] in bucket && bucket[..i + 1] == bucket[..i] + [bucket[i]];
      out := out[reply[i].0 := reply[i].1];
    }
    assert bucket[..|reply|] == bucket;
  }

  lemma BucketIndices(keys: seq<Bytes>, route: Route, s: nat)
    ensures var bucket := Select(Enumerate(keys), On(IndexShard(route), s));
            && (forall p :: p in bucket ==> p.0 < |keys| && p.1 == keys[p.0])
            && (forall j :: 0 <= j < |keys| ==> ((j, keys[j]) in bucket <==> route(keys[j]) == s))
  {
    hide Select;
    SelectMembers(Enumerate(keys), On(IndexShard(route), s));
    forall j | 0 <= j < |keys| ensures (j, keys[j]) in Enumerate(keys) {
      assert Enumerate(keys)[j] == (j, keys[j]);
    }
  }

  /** The remote shards below `upto` have served their buckets, and no other shard has. */
  ghost predicate Touched(shards: seq<Db>, shards': seq<Db>, route: Route, keys: seq<Bytes>, now: U64, clocks: nat -> nat -> nat,
                          home: nat, upto: nat)
  {
    && |shards'| == |shards|
    && forall s :: 0 <= s < |shards| ==>
         shards'[s] == if s != home && s < upto then TouchAll(shards[s], Select(keys, On(route, s)), now, clocks(s)) else shards[s]
  }

  lemma NothingToFill(results: seq<Option<Item>>, shards: seq<Db>, route: Route, keys: seq<Bytes>, now: U64, answered: set<nat>, s: nat)
    requires (forall k :: route(k) < |shards|) && Filled(results, shards, route, keys, now, answered)
    requires Select(keys, On(route, s)) == []
    ensures Filled(results, shards, route, keys, now, answered + {s})
  {
    hide Live;
    SelectMembers(keys, On(route, s));
    forall i | 0 <= i < |keys| ensures route(keys[i]) != s {
      assert keys[i] in keys;
    }
  }

  /** Every key is on the home shard. */
  lemma AllLocal(shards: seq<Db>, route: Route, keys: seq<Bytes>, now: U64, clocks: nat -> nat -> nat, home: nat)
    requires home < |shards| && forall k :: route(k) < |shards|
    requires forall s :: 0 <= s < |shards| && s != home ==> Select(keys, On(route, s)) == []
    ensures Select(keys, On(route, home)) == keys
    ensures forall i :: 0 <= i < |keys| ==> route(keys[i]) == home
  {
    forall i | 0 <= i < |keys| ensures route(keys[i]) == home {
      SelectMembers(keys, On(route, route(keys[i])));
      assert keys[i] in keys;
    }
    SelectAll(keys, On(route, home));
  }

  lemma EmptyBucket(keys: seq<Bytes>, route: Route, s: nat)
    ensures Select(Enumerate(keys), On(IndexShard(route), s)) == [] <==> Select(keys, On(route, s)) == []
  {
    KeysOfSelect(keys, route, s);
  }

  /** MGET over the shards: remote buckets first, then the local one, then the replies. */
  method DispatchMGet(shards: seq<Db>, route: Route, home: nat, keys: seq<Bytes>, now: U64, clocks: nat -> nat -> nat)
    returns (results: seq<Option<Item>>, shards': seq<Db>)
    requires home < |shards| && forall k :: route(k) < |shards|
    ensures |results| == |keys|
    ensures forall i :: 0 <= i < |keys| ==> results[i] == Live(shards[route(keys[i])], keys[i], now)
    ensures |shards'| == |shards|
    ensures forall s :: 0 <= s < |shards| ==> shards'[s] == TouchAll(shards[s], Select(keys, On(route, s)), now, clocks(s))
  {
    hide Live, TouchAll, Select;
    var n := |shards|;
    assert forall p :: IndexShard(route)(p) == route(p.1);
    var buckets := BucketByShard(Enumerate(keys), n, IndexShard(route));
    forall s | 0 <= s < n ensures buckets[s] == [] <==> Select(keys, On(route, s)) == [] {
      EmptyBucket(keys, route, s);
    }
    if forall s :: 0 <= s < n && s != home ==> buckets[s] == [] {
      AllLocal(shards, route, keys, now, clocks, home);
      results := seq(|keys|, i requires 0 <= i < |keys| => Live(shards[home], keys[i], now));
      shards' := shards[home := TouchAll(shards[home], keys, now, clocks(home))];
      forall s | 0 <= s < n ensures shards'[s] == TouchAll(shards[s], Select(keys, On(route, s)), now, clocks(s)) {
        NoTouch(shards[s], now, clocks(s));
      }
      return;
    }
    var pending: seq<seq<(nat, Option<Item>)>>;
    ghost var from: seq<nat>;
    pending, shards', from := SendAll(shards, route, home, keys, now, clocks, buckets);
    results := seq(|keys|, _ => None);
    ghost var answered: set<nat> := {};
    if buckets[home] != [] {
      var reply, db := HandleMGet(shards[home], buckets[home], now, clocks(home));
      KeysOfSelect(keys, route, home);
      shards' := shards'[home := db];
      results := Gather(results, reply, shards, route, keys, now, answered, home);
    } else {
      NoTouch(shards[home], now, clocks(home));
      NothingToFill(results, shards, route, keys, now, answered, home);
    }
    answered := {home};
    for i := 0 to |pending|
      invariant Filled(results, shards, route, keys, now, answered)
      invariant answered == {home} + (set j | 0 <= j < i :: from[j])
    {
      results := Gather(results, pending[i], shards, route, keys, now, answered, from[i]);
      answered := answered + {from[i]};
    }
    AllAnswered(results, shards, route, keys, now, home, from);
  }

  lemma NoTouch(db: Db, now: U64, clock: nat -> nat)
    ensures forall ks :: ks == [] ==> TouchAll(db, ks, now, clock) == db
  {
  }

  lemma NothingToDelete(db: Db, now: U64, clock: nat -> nat)
    ensures forall ks :: ks == [] ==> BuryAll(db, ks, clock) == db && LiveKeys(db, ks, now) == {}
  {
  }

  lemma NothingToPut(db: Db, clock: nat -> nat)
    ensures forall pairs :: pairs == [] ==> PutAll(db, pairs, clock) == db
  {
  }

  /** Whoever was not asked had no keys. */
  lemma AllAnswered(results: seq<Option<Item>>, shards: seq<Db>, route: Route, keys: seq<Bytes>, now: U64, home: nat, from: seq<nat>)
    requires forall k :: route(k) < |shards|
    requires Filled(results, shards, route, keys, now, {home} + (set j | 0 <= j < |from| :: from[j]))
    requires forall s :: 0 <= s < |shards| && s != home && Select(keys, On(route, s)) != [] ==> s in from
    ensures forall i :: 0 <= i < |keys| ==> results[i] == Live(shards[route(keys[i])], keys[i], now)
  {
    hide Live;
    forall i | 0 <= i < |keys| ensures results[i] == Live(shards[route(keys[i])], keys[i], now) {
      var s := route(keys[i]);
      SelectMembers(keys, On(route, s));
      assert keys[i] in keys;
    }
  }

  /** Send every remote bucket to its shard and keep the replies. */
  method SendAll(shards: seq<Db>, route: Route, home: nat, keys: seq<Bytes>, now: U64, clocks: nat -> nat -> nat,
                 buckets: seq<seq<(nat, Bytes)>>)
    returns (pending: seq<seq<(nat, Option<Item>)>>, shards': seq<Db>, ghost from: seq<nat>)
    requires home < |shards| && |buckets| == |shards|
    requires forall s :: 0 <= s < |shards| ==> buckets[s] == Select(Enumerate(keys), On(IndexShard(route), s))
    ensures Touched(shards, shards', route, keys, now, clocks, home, |shards|)
    ensures |pending| == |from|
    ensures forall i :: 0 <= i < |from| ==>
              from[i] < |shards| && Answers(pending[i], shards[from[i]], Select(Enumerate(keys), On(IndexShard(route), from[i])), now)
    ensures forall s :: 0 <= s < |shards| && s != home && Select(keys, On(route, s)) != [] ==> s in from
  {
    hide Live, TouchAll, Select;
    pending, shards', from := [], shards, [];
    for s := 0 to |shards|
      invariant Touched(shards, shards', route, keys, now, clocks, home, s)
      invariant |pending| == |from|
      invariant forall i :: 0 <= i < |from| ==>
                  from[i] < |shards| && Answers(pending[i], shards[from[i]], Select(Enumerate(keys), On(IndexShard(route), from[i])), now)
      invariant forall t :: 0 <= t < s && t != home && Select(keys, On(route, t)) != [] ==> t in from
    {
      EmptyBucket(keys, route, s);
      if s != home {
        if buckets[s] != [] {
          var reply, db := HandleMGet(shards[s], buckets[s], now, clocks(s));
          KeysOfSelect(keys, route, s);
          shards' := shards'[s := db];
          pending := pending + [reply];
          from := from + [s];
        } else {
          NoTouch(shards[s], now, clocks(s));
        }
      }
    }
  }

  /** MSET over the shards, not atomic across them. */
  method DispatchMSet(shards: seq<Db>, route: Route, pairs: seq<(Bytes, Bytes)>, clocks: nat -> nat -> nat) returns (shards': seq<Db>)
    requires forall k :: route(k) < |shards|
    ensures |shards'| == |shards|
    ensures forall s :: 0 <= s < |shards| ==> shards'[s] == PutAll(shards[s], Select(pairs, On(PairShard(route), s)), clocks(s))
  {
    hide Select, PutAll;
    assert forall p :: PairShard(route)(p) == route(p.0);
    var buckets := BucketByShard(pairs, |shards|, PairShard(route));
    shards' := shards;
    for s := 0 to |shards|
      invariant |shards'| == |shards|
      invariant forall t :: 0 <= t < s ==> shards'[t] == PutAll(shards[t], buckets[t], clocks(t))
      invariant forall t :: s <= t < |shards| ==> shards'[t] == shards[t]
    {
      if buckets[s] != [] {
        shards' := shards'[s := PutAll(shards[s], buckets[s], clocks(s))];
      } else {
        NothingToPut(shards[s], clocks(s));
      }
    }
  }

  /** DEL over the shards, adding up the counts. */
  method DispatchDel(shards: seq<Db>, route: Route, ks: seq<Bytes>, now: U64, clocks: nat -> nat -> nat)
    returns (total: nat, shards': seq<Db>)
    requires forall k :: route(k) < |shards|
    ensures |shards'| == |shards|
    ensures forall s :: 0 <= s < |shards| ==> shards'[s] == BuryAll(shards[s], Select(ks, On(route, s)), clocks(s))
    ensures total == CountOn(shards, route, ks, now, |shards|)
  {
    hide Select, BuryAll, LiveKeys;
    var buckets := BucketByShard(ks, |shards|, route);
    shards', total := shards, 0;
    for s := 0 to |shards|
      invariant |shards'| == |shards|
      invariant forall t :: 0 <= t < s ==> shards'[t] == BuryAll(shards[t], buckets[t], clocks(t))
      invariant forall t :: s <= t < |shards| ==> shards'[t] == shards[t]
      invariant total == CountOn(shards, route, ks, now, s)
    {
      if buckets[s] != [] {
        shards' := shards'[s := BuryAll(shards[s], buckets[s], clocks(s))];
        total := total + |LiveKeys(shards[s], buckets[s], now)|;
      } else {
        NothingToDelete(shards[s], now, clocks(s));
      }
    }
  }
}
