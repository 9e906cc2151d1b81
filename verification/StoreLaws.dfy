/** What each command means to a client that can only send requests: laws between the replies
    of GET and TTL before a command, its own reply, and the replies after it. */
module StoreLaws {
  import opened Types
  import opened Cache
  import opened Store
  import LogMachine

  const IDLE: nat -> nat := (_: nat) => 0

  function ReplyTo(dbs: Dbs, ns: Bytes, c: Command, now: U64, clock: nat -> nat, codec: Codec): Reply {
    Respond(dbs, Request(ns, c, now, clock), codec).1
  }

  function After(dbs: Dbs, ns: Bytes, c: Command, now: U64, clock: nat -> nat, codec: Codec): Dbs {
    Respond(dbs, Request(ns, c, now, clock), codec).0
  }

  /** What GET finds at an instant. */
  function Got(dbs: Dbs, ns: Bytes, k: Bytes, now: U64): Option<Item> {
    var r := ReplyTo(dbs, ns, GetCmd(k), now, IDLE, NO_CODEC);
    if r.Found? then r.item else None
  }

  /** From `now` on, GET cannot tell the two stores apart on the keys outside `ks` of `ns`. */
  ghost predicate SameBut(dbs: Dbs, dbs': Dbs, ns: Bytes, ks: set<Bytes>, now: U64) {
    forall ns2: Bytes, k: Bytes, t: U64 :: ValidNs(ns2) && (ns2 != ns || k !in ks) && t >= now ==> Got(dbs', ns2, k, t) == Got(dbs, ns2, k, t)
  }

  /** From `now` on GET finds this value and metadata, up to the instant it expires. */
  ghost predicate Shows(dbs: Dbs, ns: Bytes, k: Bytes, now: U64, value: Bytes, expires: Option<U64>, meta: Option<Bytes>) {
    forall t: U64 :: t >= now ==>
      var g := Got(dbs, ns, k, t);
      if expires.Some? && expires.value <= t then g == None
      else g.Some? && g.value.value == value && g.value.expires == expires && g.value.meta == meta
  }

  ghost predicate Gone(dbs: Dbs, ns: Bytes, k: Bytes) {
    forall t: U64 :: Got(dbs, ns, k, t) == None
  }

  /** GET reads the log. */
  lemma GotIs(dbs: Dbs, ns: Bytes, k: Bytes, t: U64)
    requires ValidNs(ns)
    ensures Got(dbs, ns, k, t) == Live(DbOf(dbs, ns), k, t)
  {
    hide ValidNs, Touch;
  }

  /** What the log's items say about a key from `now` on. */
  lemma ItemShows(dbs: Dbs, ns: Bytes, db: Db, k: Bytes, now: U64)
    requires ValidNs(ns)
    ensures k in db.items ==>
              var item := db.items[k];
              && Shows(dbs[ns := db], ns, k, now, item.value, item.expires, item.meta)
              && Got(dbs[ns := db], ns, k, now) == if item.Expired(now) then None else Some(item)
    ensures k !in db.items ==> Gone(dbs[ns := db], ns, k)
  {
    hide ValidNs, Got;
    var dbs' := dbs[ns := db];
    forall t: U64 ensures Got(dbs', ns, k, t) == Live(db, k, t) {
      GotIs(dbs', ns, k, t);
    }
    if k in db.items {
      assert Shows(dbs', ns, k, now, db.items[k].value, db.items[k].expires, db.items[k].meta);
    } else {
      assert Gone(dbs', ns, k);
    }
  }

  /** A change to the log that GET sees on the keys `ks` at most: other items stay, or had
      expired. */
  ghost predicate Confined(db: Db, db': Db, ks: set<Bytes>, now: U64) {
    forall k :: k !in ks ==> Get(db'.items, k) == Get(db.items, k) || (Expired(db, k, now) && k !in db'.items)
  }

  lemma ConfinedSame(dbs: Dbs, ns: Bytes, db': Db, ks: set<Bytes>, now: U64)
    requires ValidNs(ns) && Confined(DbOf(dbs, ns), db', ks, now)
    ensures SameBut(dbs, dbs[ns := db'], ns, ks, now)
  {
    hide ValidNs, Got;
    forall ns2: Bytes, k: Bytes, t: U64 | ValidNs(ns2) && (ns2 != ns || k !in ks) && t >= now
      ensures Got(dbs[ns := db'], ns2, k, t) == Got(dbs, ns2, k, t)
    {
      GotIs(dbs, ns2, k, t);
      GotIs(dbs[ns := db'], ns2, k, t);
      if ns2 == ns {
        assert Get(db'.items, k) == Get(DbOf(dbs, ns).items, k) || (Expired(DbOf(dbs, ns), k, now) && k !in db'.items);
      }
    }
  }

  /** What a command leaves, as GET sees it. */
  lemma Outcome(dbs: Dbs, ns: Bytes, c: Command, k: Bytes, now: U64, clock: nat -> nat, codec: Codec)
    requires ValidNs(ns)
    ensures var db := DbOf(dbs, ns);
            var (db', r) := Step(db, c, now, clock, codec);
            && After(dbs, ns, c, now, clock, codec) == dbs[ns := db'] && ReplyTo(dbs, ns, c, now, clock, codec) == r
            && (Confined(db, db', {}, now) ==> SameBut(dbs, dbs[ns := db'], ns, {}, now))
            && (Confined(db, db', {k}, now) ==> SameBut(dbs, dbs[ns := db'], ns, {k}, now))
            && (k in db'.items ==>
                  var item := db'.items[k];
                  && Shows(dbs[ns := db'], ns, k, now, item.value, item.expires, item.meta)
                  && Got(dbs[ns := db'], ns, k, now) == if item.Expired(now) then None else Some(item))
            && (k !in db'.items ==> Gone(dbs[ns := db'], ns, k))
            && Got(dbs, ns, k, now) == Live(db, k, now)
  {
    hide ValidNs, Step, Shows, Got, SameBut, Gone, Confined;
    var db, db' := DbOf(dbs, ns), Step(DbOf(dbs, ns), c, now, clock, codec).0;
    GotIs(dbs, ns, k, now);
    ItemShows(dbs, ns, db', k, now);
    if Confined(db, db', {}, now) {
      ConfinedSame(dbs, ns, db', {}, now);
    }
    if Confined(db, db', {k}, now) {
      ConfinedSame(dbs, ns, db', {k}, now);
    }
  }

  /** GET replies what it finds, whatever the clock and the codec are. */
  lemma GetReplies(dbs: Dbs, ns: Bytes, k: Bytes, now: U64, clock: nat -> nat, codec: Codec)
    requires ValidNs(ns)
    ensures ReplyTo(dbs, ns, GetCmd(k), now, clock, codec) == Found(Got(dbs, ns, k, now))
    ensures SameBut(dbs, After(dbs, ns, GetCmd(k), now, clock, codec), ns, {}, now)
    ensures Got(dbs, ns, k, now).Some? && Got(dbs, ns, k, now).value.expires.Some? ==> Got(dbs, ns, k, now).value.expires.value > now
  {
    hide ValidNs, Got, Shows, SameBut, Gone, After, ReplyTo;
    Outcome(dbs, ns, GetCmd(k), k, now, clock, codec);
  }

  /** TTL replies the time that is left. */
  lemma TtlReplies(dbs: Dbs, ns: Bytes, k: Bytes, now: U64, clock: nat -> nat, codec: Codec)
    requires ValidNs(ns)
    ensures var g, r := Got(dbs, ns, k, now), ReplyTo(dbs, ns, TtlCmd(k), now, clock, codec);
            if g.None? then r == Left(None)
            else if g.value.expires.None? then r == Left(Some(None))
            else r.Left? && r.ms.Some? && r.ms.value.Some? && g.value.expires.value == now + r.ms.value.value
    ensures SameBut(dbs, After(dbs, ns, TtlCmd(k), now, clock, codec), ns, {}, now)
  {
    hide ValidNs, Got, Shows, SameBut, Gone, After, ReplyTo;
    Outcome(dbs, ns, TtlCmd(k), k, now, clock, codec);
  }

  /** The expiry a write asks for, from what GET found. */
  function Asked(g: Option<Item>, ttl: Ttl, now: U64): Option<U64> {
    match ttl
    case NoTtl => None
    case KeepTtl => if g.Some? then g.value.expires else None
    case ForMs(ms) => if now + ms <= U64_MAX then Some(now + ms) else None
  }

  predicate Overflows(ttl: Ttl, now: U64) {
    ttl.ForMs? && now + ttl.ms > U64_MAX
  }

  /** The log still holds the key past its expiry. */
  predicate Lingers(dbs: Dbs, ns: Bytes, k: Bytes, now: U64) {
    k in DbOf(dbs, ns).items && Got(dbs, ns, k, now).None?
  }

  /** SET then GET: value, metadata and expiry as given, under a new revision. */
  lemma SetThenGet(dbs: Dbs, ns: Bytes, k: Bytes, v: Bytes, meta: Option<Bytes>, ttl: Ttl, now: U64, clock: nat -> nat, codec: Codec)
    requires ValidNs(ns)
    ensures var c := SetCmd(k, v, meta, ttl);
            var dbs' := After(dbs, ns, c, now, clock, codec);
            if Overflows(ttl, now) then ReplyTo(dbs, ns, c, now, clock, codec) == BadTtl && SameBut(dbs, dbs', ns, {}, now)
            else
              && ReplyTo(dbs, ns, c, now, clock, codec) == Done && SameBut(dbs, dbs', ns, {k}, now)
              && ((ttl.KeepTtl? && Lingers(dbs, ns, k, now)) || Shows(dbs', ns, k, now, v, Asked(Got(dbs, ns, k, now), ttl, now), meta))
              && (Got(dbs', ns, k, now).Some? ==> Got(dbs', ns, k, now).value.revision > DbOf(dbs, ns).last)
  {
    hide ValidNs, Got, Shows, SameBut, Gone, After, ReplyTo;
    Outcome(dbs, ns, SetCmd(k, v, meta, ttl), k, now, clock, codec);
  }

  /** A SET that keeps the TTL is visible if and only if its key does not linger past its
      expiry: otherwise the new value inherits the expiry that has passed. */
  lemma KeepTtlExact(dbs: Dbs, ns: Bytes, k: Bytes, v: Bytes, meta: Option<Bytes>, now: U64, clock: nat -> nat, codec: Codec)
    requires ValidNs(ns)
    ensures Got(After(dbs, ns, SetCmd(k, v, meta, KeepTtl), now, clock, codec), ns, k, now).Some? <==> !Lingers(dbs, ns, k, now)
  {
    hide ValidNs, Got, Shows, SameBut, Gone, After, ReplyTo;
    Outcome(dbs, ns, SetCmd(k, v, meta, KeepTtl), k, now, clock, codec);
  }

  /** A key set with a TTL lingers from its deadline on, so keeping that TTL then loses the
      write. */
  lemma KeepTtlLosesWrite(ns: Bytes, k: Bytes, v: Bytes, w: Bytes, ms: nat, now: U64, later: U64, clock: nat -> nat, codec: Codec)
    requires ValidNs(ns) && now + ms <= later
    ensures var set1 := Request(ns, SetCmd(k, v, None, ForMs(ms)), now, clock);
            var set2 := Request(ns, SetCmd(k, w, None, KeepTtl), later, clock);
            Uncached(map[], [set1, set2, Request(ns, GetCmd(k), later, clock)], codec).1 == [Done, Done, Found(None)]
  {
    hide ValidNs;
    var set1 := Request(ns, SetCmd(k, v, None, ForMs(ms)), now, clock);
    var set2 := Request(ns, SetCmd(k, w, None, KeepTtl), later, clock);
    var get := Request(ns, GetCmd(k), later, clock);
    UncachedSnoc(map[], [], set1, codec);
    UncachedSnoc(map[], [set1], set2, codec);
    UncachedSnoc(map[], [set1, set2], get, codec);
    assert [] + [set1] == [set1] && [set1] + [set2] == [set1, set2] && [set1, set2] + [get] == [set1, set2, get];
  }

  lemma UncachedSnoc(dbs: Dbs, rs: seq<Request>, r: Request, codec: Codec)
    ensures Uncached(dbs, [], codec) == (dbs, [])
    ensures var before := Uncached(dbs, rs, codec);
            Uncached(dbs, rs + [r], codec) == (Respond(before.0, r, codec).0, before.1 + [Respond(before.0, r, codec).1])
  {
    hide Respond;
    assert (rs + [r])[..|rs|] == rs;
  }

  /** What the conditional writes ask of the GET before them. */
  predicate Passes(g: Option<Item>, cond: Condition) {
    match cond
    case KeyAbsent => g.None?
    case KeyPresent => g.Some?
    case Revision(rev) => g.Some? && g.value.revision == rev
  }

  /** SETNX, SETXX and SETREV write exactly when the GET before missed, hit, or hit that
      revision; the reply is the new revision, or none. */
  lemma SetIfExact(dbs: Dbs, ns: Bytes, k: Bytes, v: Bytes, meta: Option<Bytes>, ttl: Ttl, cond: Condition, now: U64, clock: nat -> nat, codec: Codec)
    requires ValidNs(ns)
    ensures var c, g := SetIfCmd(k, v, meta, ttl, cond), Got(dbs, ns, k, now);
            var dbs', r := After(dbs, ns, c, now, clock, codec), ReplyTo(dbs, ns, c, now, clock, codec);
            if Overflows(ttl, now) then r == BadTtl && SameBut(dbs, dbs', ns, {}, now)
            else if !Passes(g, cond) then r == Wrote(None) && SameBut(dbs, dbs', ns, {}, now)
            else
              && r.Wrote? && r.rev.Some? && r.rev.value > DbOf(dbs, ns).last && SameBut(dbs, dbs', ns, {k}, now)
              && (Got(dbs', ns, k, now).Some? ==> Got(dbs', ns, k, now).value.revision == r.rev.value)
              && ((ttl.KeepTtl? && Lingers(dbs, ns, k, now))
                  || Shows(dbs', ns, k, now, v, if cond.Revision? && ttl.KeepTtl? then None else Asked(g, ttl, now), meta))
  {
    hide ValidNs, Got, Shows, SameBut, Gone, After, ReplyTo;
    Outcome(dbs, ns, SetIfCmd(k, v, meta, ttl, cond), k, now, clock, codec);
  }

  /** EXPIRE moves only the expiry: the TTL is then what was asked, and from the deadline on
      the key is not found. */
  lemma ExpireLaw(dbs: Dbs, ns: Bytes, k: Bytes, ms: nat, now: U64, clock: nat -> nat, codec: Codec)
    requires ValidNs(ns)
    ensures var c, g := ExpireCmd(k, ms), Got(dbs, ns, k, now);
            var dbs', r := After(dbs, ns, c, now, clock, codec), ReplyTo(dbs, ns, c, now, clock, codec);
            if g.None? then r == Flag(false) && SameBut(dbs, dbs', ns, {}, now)
            else if now + ms > U64_MAX then r == BadTtl && SameBut(dbs, dbs', ns, {}, now)
            else
              && r == Flag(true) && SameBut(dbs, dbs', ns, {k}, now)
              && Shows(dbs', ns, k, now, g.value.value, Some(now + ms), g.value.meta)
              && (ms > 0 ==> ReplyTo(dbs', ns, TtlCmd(k), now, clock, codec) == Left(Some(Some(ms)))
                             && Got(dbs', ns, k, now).value.revision == g.value.revision)
  {
    hide ValidNs, Got, Shows, SameBut, Gone, After, ReplyTo;
    Outcome(dbs, ns, ExpireCmd(k, ms), k, now, clock, codec);
    TtlReplies(After(dbs, ns, ExpireCmd(k, ms), now, clock, codec), ns, k, now, clock, codec);
  }

  /** PERSIST takes the expiry away, if there was one. */
  lemma PersistLaw(dbs: Dbs, ns: Bytes, k: Bytes, now: U64, clock: nat -> nat, codec: Codec)
    requires ValidNs(ns)
    ensures var c, g := PersistCmd(k), Got(dbs, ns, k, now);
            var dbs', r := After(dbs, ns, c, now, clock, codec), ReplyTo(dbs, ns, c, now, clock, codec);
            if g.None? || g.value.expires.None? then r == Flag(false) && SameBut(dbs, dbs', ns, {}, now)
            else
              && r == Flag(true) && SameBut(dbs, dbs', ns, {k}, now)
              && Shows(dbs', ns, k, now, g.value.value, None, g.value.meta)
              && Got(dbs', ns, k, now).value.revision == g.value.revision
              && ReplyTo(dbs', ns, TtlCmd(k), now, clock, codec) == Left(Some(None))
  {
    hide ValidNs, Got, Shows, SameBut, Gone, After, ReplyTo;
    Outcome(dbs, ns, PersistCmd(k), k, now, clock, codec);
    TtlReplies(After(dbs, ns, PersistCmd(k), now, clock, codec), ns, k, now, clock, codec);
  }

  /** GETEX replies the GET before, and sets the expiry it was given. */
  lemma GetExLaw(dbs: Dbs, ns: Bytes, k: Bytes, ttl: Ttl, now: U64, clock: nat -> nat, codec: Codec)
    requires ValidNs(ns)
    ensures var c, g := GetExCmd(k, ttl), Got(dbs, ns, k, now);
            var dbs', r := After(dbs, ns, c, now, clock, codec), ReplyTo(dbs, ns, c, now, clock, codec);
            if g.Some? && Overflows(ttl, now) then r == BadTtl && SameBut(dbs, dbs', ns, {}, now)
            else
              && r == Found(g) && SameBut(dbs, dbs', ns, {k}, now)
              && if g.None? then SameBut(dbs, dbs', ns, {}, now)
                 else Shows(dbs', ns, k, now, g.value.value, Asked(g, ttl, now), g.value.meta)
  {
    hide ValidNs, Got, Shows, SameBut, Gone, After, ReplyTo;
    Outcome(dbs, ns, GetExCmd(k, ttl), k, now, clock, codec);
  }

  /** GETSET replies the GET before and sets the value, without expiry or metadata. */
  lemma GetSetLaw(dbs: Dbs, ns: Bytes, k: Bytes, v: Bytes, now: U64, clock: nat -> nat, codec: Codec)
    requires ValidNs(ns)
    ensures var dbs' := After(dbs, ns, GetSetCmd(k, v), now, clock, codec);
            && ReplyTo(dbs, ns, GetSetCmd(k, v), now, clock, codec) == Found(Got(dbs, ns, k, now))
            && SameBut(dbs, dbs', ns, {k}, now) && Shows(dbs', ns, k, now, v, None, None)
            && Got(dbs', ns, k, now).value.revision > DbOf(dbs, ns).last
  {
    hide ValidNs, Got, Shows, SameBut, Gone, After, ReplyTo;
    Outcome(dbs, ns, GetSetCmd(k, v), k, now, clock, codec);
  }

  /** GETDEL replies the GET before and deletes the key. */
  lemma GetDelLaw(dbs: Dbs, ns: Bytes, k: Bytes, now: U64, clock: nat -> nat, codec: Codec)
    requires ValidNs(ns)
    ensures var dbs' := After(dbs, ns, GetDelCmd(k), now, clock, codec);
            && ReplyTo(dbs, ns, GetDelCmd(k), now, clock, codec) == Found(Got(dbs, ns, k, now))
            && SameBut(dbs, dbs', ns, {k}, now) && Gone(dbs', ns, k)
  {
    hide ValidNs, Got, Shows, SameBut, Gone, After, ReplyTo;
    Outcome(dbs, ns, GetDelCmd(k), k, now, clock, codec);
  }

  /** DELREV deletes exactly when the GET before hit that revision. */
  lemma DelRevLaw(dbs: Dbs, ns: Bytes, k: Bytes, rev: U64, now: U64, clock: nat -> nat, codec: Codec)
    requires ValidNs(ns)
    ensures var c, g := DelRevCmd(k, rev), Got(dbs, ns, k, now);
            var dbs', r := After(dbs, ns, c, now, clock, codec), ReplyTo(dbs, ns, c, now, clock, codec);
            if g.Some? && g.value.revision == rev
            then r.Wrote? && r.rev.Some? && r.rev.value > DbOf(dbs, ns).last && SameBut(dbs, dbs', ns, {k}, now) && Gone(dbs', ns, k)
            else r == Wrote(None) && SameBut(dbs, dbs', ns, {}, now)
  {
    hide ValidNs, Got, Shows, SameBut, Gone, After, ReplyTo;
    Outcome(dbs, ns, DelRevCmd(k, rev), k, now, clock, codec);
  }

  /** The number a counter shows: zero when the key is missing. */
  function Shown(codec: Codec, g: Option<Item>): Option<int> {
    if g.None? then Some(0)
    else
      var n := codec.parse(g.value.value);
      if n.Some? && InI64(n.value) then n else None
  }

  /** INCR adds: the reply and the GET after are the GET before plus the delta, the expiry
      stays; text that is no number and sums out of range are refused and change nothing. */
  lemma IncrLaw(dbs: Dbs, ns: Bytes, k: Bytes, delta: int, now: U64, clock: nat -> nat, codec: Codec)
    requires ValidNs(ns) && codec.Ok()
    ensures var c, g := IncrCmd(k, delta), Got(dbs, ns, k, now);
            var dbs', r := After(dbs, ns, c, now, clock, codec), ReplyTo(dbs, ns, c, now, clock, codec);
            var n := Shown(codec, g);
            if n.None? then r == NotAnInteger && SameBut(dbs, dbs', ns, {}, now)
            else if !InI64(n.value + delta) then r == Overflow && SameBut(dbs, dbs', ns, {}, now)
            else
              && r == Number(n.value + delta) && SameBut(dbs, dbs', ns, {k}, now)
              && Shown(codec, Got(dbs', ns, k, now)) == Some(n.value + delta)
              && Shows(dbs', ns, k, now, codec.render(n.value + delta), if g.Some? then g.value.expires else None, None)
              && Got(dbs', ns, k, now).value.revision > DbOf(dbs, ns).last
  {
    hide ValidNs, Got, Shows, SameBut, Gone, After, ReplyTo;
    Outcome(dbs, ns, IncrCmd(k, delta), k, now, clock, codec);
  }

  lemma SameThrough(dbs: Dbs, a: Dbs, b: Dbs, c: Dbs, ns: Bytes, ks: set<Bytes>, now: U64)
    requires SameBut(dbs, a, ns, ks, now) && SameBut(a, b, ns, ks, now) && SameBut(dbs, c, ns, ks, now)
    ensures SameBut(c, b, ns, ks, now)
  {
    hide Got, ValidNs;
  }

  /** Two increments leave what one increment of their sum leaves. */
  lemma IncrTwice(dbs: Dbs, ns: Bytes, k: Bytes, a: int, b: int, now: U64, clock: nat -> nat, clock': nat -> nat, codec: Codec)
    requires ValidNs(ns) && codec.Ok() && Shown(codec, Got(dbs, ns, k, now)).Some?
    requires var n := Shown(codec, Got(dbs, ns, k, now)).value; InI64(n + a) && InI64(n + a + b)
    ensures var dbs1 := After(dbs, ns, IncrCmd(k, a), now, clock, codec);
            var two, one := After(dbs1, ns, IncrCmd(k, b), now, clock', codec), After(dbs, ns, IncrCmd(k, a + b), now, clock, codec);
            && ReplyTo(dbs1, ns, IncrCmd(k, b), now, clock', codec) == ReplyTo(dbs, ns, IncrCmd(k, a + b), now, clock, codec)
            && SameBut(one, two, ns, {k}, now)
            && forall t: U64 :: t >= now ==>
                 var x, y := Got(one, ns, k, t), Got(two, ns, k, t);
                 x.Some? == y.Some? && (x.Some? ==> x.value.value == y.value.value && x.value.expires == y.value.expires && x.value.meta == y.value.meta)
  {
    hide ReplyTo, After, Got, Codec.Ok, ValidNs, DbOf, SameBut;
    var dbs1 := After(dbs, ns, IncrCmd(k, a), now, clock, codec);
    IncrLaw(dbs, ns, k, a, now, clock, codec);
    IncrLaw(dbs, ns, k, a + b, now, clock, codec);
    IncrLaw(dbs1, ns, k, b, now, clock', codec);
    GetReplies(dbs, ns, k, now, clock, codec);
    assert Got(dbs1, ns, k, now).Some?;
    SameThrough(dbs, dbs1, After(dbs1, ns, IncrCmd(k, b), now, clock', codec), After(dbs, ns, IncrCmd(k, a + b), now, clock, codec), ns, {k}, now);
  }

  /** MGET replies the GETs of its keys, in order. */
  lemma MGetLaw(dbs: Dbs, ns: Bytes, ks: seq<Bytes>, now: U64, clock: nat -> nat, codec: Codec)
    requires ValidNs(ns)
    ensures var r := ReplyTo(dbs, ns, MGetCmd(ks), now, clock, codec);
            r.FoundAll? && |r.items| == |ks| && forall i :: 0 <= i < |ks| ==> r.items[i] == Got(dbs, ns, ks[i], now)
    ensures SameBut(dbs, After(dbs, ns, MGetCmd(ks), now, clock, codec), ns, {}, now)
  {
    hide ValidNs, Got, SameBut;
    var db := DbOf(dbs, ns);
    TouchAllKeeps(db, ks, now, clock);
    TouchAllExpired(db, ks, now, clock);
    ConfinedSame(dbs, ns, TouchAll(db, ks, now, clock), {}, now);
    forall i | 0 <= i < |ks| ensures Live(db, ks[i], now) == Got(dbs, ns, ks[i], now) {
      GotIs(dbs, ns, ks[i], now);
    }
  }

  lemma TouchAllExpired(db: Db, ks: seq<Bytes>, now: U64, clock: nat -> nat)
    ensures Confined(db, TouchAll(db, ks, now, clock), {}, now)
  {
    hide TouchAll;
    TouchAllKeeps(db, ks, now, clock);
  }

  /** How many of the GETs of `ks` hit. */
  function Hits(dbs: Dbs, ns: Bytes, ks: seq<Bytes>, now: U64): nat {
    if ks == [] then 0
    else Hits(dbs, ns, ks[1..], now) + if Got(dbs, ns, ks[0], now).Some? then 1 else 0
  }

  lemma {:induction false} LiveCountHits(dbs: Dbs, ns: Bytes, ks: seq<Bytes>, now: U64)
    requires ValidNs(ns)
    ensures LiveCount(DbOf(dbs, ns), ks, now) == Hits(dbs, ns, ks, now)
  {
    hide ValidNs, Got, DbOf, Live;
    if |ks| == 1 {
      GotIs(dbs, ns, ks[0], now);
      assert ks[1..] == [] && ks[..0] == [];
    } else if ks != [] {
      var n := |ks| - 1;
      LiveCountHits(dbs, ns, ks[..n], now);
      LiveCountHits(dbs, ns, ks[1..], now);
      LiveCountHits(dbs, ns, ks[1..n], now);
      GotIs(dbs, ns, ks[0], now);
      assert ks[..n][1..] == ks[1..n] && ks[1..][..n - 1] == ks[1..n];
    }
  }

  /** EXISTS counts the GETs that hit, repeated keys included. */
  lemma ExistsLaw(dbs: Dbs, ns: Bytes, ks: seq<Bytes>, now: U64, clock: nat -> nat, codec: Codec)
    requires ValidNs(ns)
    ensures ReplyTo(dbs, ns, ExistsCmd(ks), now, clock, codec) == Count(Hits(dbs, ns, ks, now))
    ensures SameBut(dbs, After(dbs, ns, ExistsCmd(ks), now, clock, codec), ns, {}, now)
  {
    hide ValidNs, Got, SameBut, Hits, LiveCount;
    LiveCountHits(dbs, ns, ks, now);
    ConfinedSame(dbs, ns, DbOf(dbs, ns), {}, now);
  }

  /** DEL counts the distinct keys whose GET hit, and deletes them all. */
  lemma DelLaw(dbs: Dbs, ns: Bytes, ks: seq<Bytes>, now: U64, clock: nat -> nat, codec: Codec)
    requires ValidNs(ns)
    ensures var dbs' := After(dbs, ns, DelCmd(ks), now, clock, codec);
            && ReplyTo(dbs, ns, DelCmd(ks), now, clock, codec) == Count(|set k | k in ks && Got(dbs, ns, k, now).Some?|)
            && SameBut(dbs, dbs', ns, (set k | k in ks), now) && forall k :: k in ks ==> Gone(dbs', ns, k)
  {
    hide ValidNs, Got, SameBut, Gone;
    var db := DbOf(dbs, ns);
    BuryAllItems(db, ks, clock);
    var db' := BuryAll(db, ks, clock);
    ConfinedSame(dbs, ns, db', (set k | k in ks), now) by {
      assert forall k :: k !in (set j | j in ks) ==> Get(db'.items, k) == Get(db.items, k);
    }
    forall k | k in ks ensures Gone(dbs[ns := db'], ns, k) {
      assert Get(db'.items, k) == None;
      ItemShows(dbs, ns, db', k, now);
    }
    forall k ensures Got(dbs, ns, k, now) == Live(db, k, now) {
      GotIs(dbs, ns, k, now);
    }
    assert LiveKeys(db, ks, now) == set k | k in ks && Got(dbs, ns, k, now).Some?;
  }

  lemma {:induction false} PutAllItems(db: Db, pairs: seq<(Bytes, Bytes)>, clock: nat -> nat, i: nat)
    requires i < |pairs| && forall j :: i < j < |pairs| ==> pairs[j].0 != pairs[i].0
    ensures var items := PutAll(db, pairs, clock).items;
            pairs[i].0 in items && items[pairs[i].0].value == pairs[i].1 && items[pairs[i].0].expires == None && items[pairs[i].0].meta == None
    decreases |pairs|
  {
    var n := |pairs| - 1;
    if i < n {
      PutAllItems(db, pairs[..n], clock, i);
    }
  }

  lemma {:induction false} PutAllOthers(db: Db, pairs: seq<(Bytes, Bytes)>, clock: nat -> nat, k: Bytes)
    requires forall j :: 0 <= j < |pairs| ==> pairs[j].0 != k
    ensures Get(PutAll(db, pairs, clock).items, k) == Get(db.items, k)
    decreases |pairs|
  {
    if pairs != [] {
      PutAllOthers(db, pairs[..|pairs| - 1], clock, k);
    }
  }

  /** After MSET each key has the value of its last pair, without expiry or metadata. */
  lemma MSetLaw(dbs: Dbs, ns: Bytes, pairs: seq<(Bytes, Bytes)>, now: U64, clock: nat -> nat, codec: Codec)
    requires ValidNs(ns)
    ensures var dbs' := After(dbs, ns, MSetCmd(pairs), now, clock, codec);
            && ReplyTo(dbs, ns, MSetCmd(pairs), now, clock, codec) == Done
            && SameBut(dbs, dbs', ns, (set p | p in pairs :: p.0), now)
            && forall i :: 0 <= i < |pairs| && (forall j :: i < j < |pairs| ==> pairs[j].0 != pairs[i].0) ==>
                 Shows(dbs', ns, pairs[i].0, now, pairs[i].1, None, None)
  {
    hide ValidNs, Got, SameBut, Shows, PutAll, Gone;
    var db' := PutAll(DbOf(dbs, ns), pairs, clock);
    forall k | k !in (set p | p in pairs :: p.0) ensures Get(db'.items, k) == Get(DbOf(dbs, ns).items, k) {
      forall j | 0 <= j < |pairs| ensures pairs[j].0 != k {
        assert pairs[j] in pairs;
      }
      PutAllOthers(DbOf(dbs, ns), pairs, clock, k);
    }
    ConfinedSame(dbs, ns, db', (set p | p in pairs :: p.0), now);
    forall i | 0 <= i < |pairs| && forall j :: i < j < |pairs| ==> pairs[j].0 != pairs[i].0
      ensures Shows(dbs[ns := db'], ns, pairs[i].0, now, pairs[i].1, None, None)
    {
      PutAllItems(DbOf(dbs, ns), pairs, clock, i);
      ItemShows(dbs, ns, db', pairs[i].0, now);
    }
  }

  /** FLUSH empties its namespace and no other. */
  lemma FlushLaw(dbs: Dbs, ns: Bytes, k: Bytes, ns2: Bytes, t: U64, now: U64, clock: nat -> nat, codec: Codec)
    requires ValidNs(ns) && ValidNs(ns2)
    ensures ReplyTo(dbs, ns, FlushCmd, now, clock, codec) == Done
    ensures Got(After(dbs, ns, FlushCmd, now, clock, codec), ns2, k, t) == if ns2 == ns then None else Got(dbs, ns2, k, t)
  {
    hide ValidNs, Got;
    GotIs(dbs, ns2, k, t);
    GotIs(dbs[ns := Db(map[], Stamp(DbOf(dbs, ns), clock(0)))], ns2, k, t);
  }

  /** RECLAIM and the sweep of the cache are invisible. */
  lemma InvisibleLaw(dbs: Dbs, ns: Bytes, now: U64, clock: nat -> nat, codec: Codec)
    requires ValidNs(ns)
    ensures SameBut(dbs, After(dbs, ns, ReclaimCmd, now, clock, codec), ns, {}, now)
    ensures SameBut(dbs, After(dbs, ns, SweepCmd, now, clock, codec), ns, {}, now)
  {
    hide ValidNs, Got, SameBut;
    ConfinedSame(dbs, ns, DbOf(dbs, ns), {}, now);
  }

  /** A request is refused, and changes nothing, exactly when its namespace is empty, longer
      than 64 bytes or has a byte that is no letter, digit, underscore or dash. */
  lemma NamespaceLaw(dbs: Dbs, ns: Bytes, c: Command, now: U64, clock: nat -> nat, codec: Codec)
    ensures ReplyTo(dbs, ns, c, now, clock, codec) == BadNamespace <==>
              |ns| == 0 || |ns| > 64 || exists i :: 0 <= i < |ns| && Odd(ns[i])
    ensures ReplyTo(dbs, ns, c, now, clock, codec) == BadNamespace ==> After(dbs, ns, c, now, clock, codec) == dbs
  {
    StepAnswers(DbOf(dbs, ns), c, now, clock, codec);
    assert forall b: Byte :: Odd(b) <==> !NameByte(b);
    hide Step, NameByte, Odd;
  }

  predicate Odd(b: Byte) {
    var ch := b as char;
    !('a' <= ch <= 'z') && !('A' <= ch <= 'Z') && !('0' <= ch <= '9') && ch != '_' && ch != '-'
  }

  lemma StepAnswers(db: Db, c: Command, now: U64, clock: nat -> nat, codec: Codec)
    ensures Step(db, c, now, clock, codec).1 != BadNamespace
  {
    hide Touch, TouchAll, PutIn, Bury, BuryAll, PutAll, Retime, LiveKeys, LiveCount;
  }

  /** Revisions of a namespace are at most the last one issued. */
  ghost predicate Ordered(db: Db) {
    forall k :: k in db.items ==> db.items[k].revision <= db.last
  }

  /** A revision names one value: after a command an item has the value, metadata and revision
      it had, or a revision above every one issued before. */
  ghost predicate Succeeds(db: Db, db': Db) {
    && db.last <= db'.last
    && forall k :: k in db'.items ==>
         var item := db'.items[k];
         || (k in db.items && item.(expires := None) == db.items[k].(expires := None))
         || db.last < item.revision <= db'.last
  }

  lemma SucceedsTwice(a: Db, b: Db, c: Db)
    requires Succeeds(a, b) && Succeeds(b, c)
    ensures Succeeds(a, c)
  {
    forall k | k in c.items
      ensures (k in a.items && c.items[k].(expires := None) == a.items[k].(expires := None)) || a.last < c.items[k].revision <= c.last
    {
      if k in b.items && c.items[k].(expires := None) == b.items[k].(expires := None) {
        assert (k in a.items && b.items[k].(expires := None) == a.items[k].(expires := None)) || a.last < b.items[k].revision <= b.last;
      }
    }
  }

  lemma StepsSucceed(db: Db, k: Bytes, v: Bytes, at: Option<U64>, meta: Option<Bytes>, now: U64, clock: nat)
    ensures Succeeds(db, db) && Succeeds(db, PutIn(db, k, v, at, meta, clock)) && Succeeds(db, Bury(db, k, clock))
    ensures Succeeds(db, Retime(db, k, at, clock)) && Succeeds(db, Touch(db, k, now, clock)) && Succeeds(db, Db(map[], Stamp(db, clock)))
  {
  }

  lemma {:induction false} BatchesSucceed(db: Db, ks: seq<Bytes>, pairs: seq<(Bytes, Bytes)>, now: U64, clock: nat -> nat)
    ensures Succeeds(db, TouchAll(db, ks, now, clock)) && Succeeds(db, BuryAll(db, ks, clock)) && Succeeds(db, PutAll(db, pairs, clock))
    decreases |ks| + |pairs|
  {
    hide Succeeds, Touch, Bury, PutIn;
    StepsSucceed(db, [], [], None, None, now, 0);
    if ks != [] {
      var n := |ks| - 1;
      BatchesSucceed(db, ks[..n], pairs, now, clock);
      StepsSucceed(TouchAll(db, ks[..n], now, clock), ks[n], [], None, None, now, clock(n));
      StepsSucceed(BuryAll(db, ks[..n], clock), ks[n], [], None, None, now, clock(n));
      SucceedsTwice(db, TouchAll(db, ks[..n], now, clock), TouchAll(db, ks, now, clock));
      SucceedsTwice(db, BuryAll(db, ks[..n], clock), BuryAll(db, ks, clock));
    } else if pairs != [] {
      var n := |pairs| - 1;
      BatchesSucceed(db, ks, pairs[..n], now, clock);
      StepsSucceed(PutAll(db, pairs[..n], clock), pairs[n].0, pairs[n].1, None, None, now, clock(n));
      SucceedsTwice(db, PutAll(db, pairs[..n], clock), PutAll(db, pairs, clock));
    }
  }

  /** Whatever the command. */
  lemma RevisionsName(db: Db, c: Command, now: U64, clock: nat -> nat, codec: Codec)
    ensures Succeeds(db, Step(db, c, now, clock, codec).0)
    ensures Ordered(db) ==> Ordered(Step(db, c, now, clock, codec).0)
  {
    SuccessorStep(db, c, now, clock, codec);
    SuccessorOrdered(db, Step(db, c, now, clock, codec).0) by { hide Step; }
  }

  lemma SuccessorOrdered(db: Db, db': Db)
    requires Succeeds(db, db')
    ensures Ordered(db) ==> Ordered(db')
  {
    forall k | Ordered(db) && k in db'.items ensures db'.items[k].revision <= db'.last {
      assert (k in db.items && db'.items[k].(expires := None) == db.items[k].(expires := None)) || db.last < db'.items[k].revision <= db'.last;
    }
  }

  lemma SetSucceeds(db: Db, k: Bytes, v: Bytes, meta: Option<Bytes>, ttl: Ttl, cond: Option<Condition>, now: U64, clock: nat)
    ensures Succeeds(db, SetStep(db, k, v, meta, ttl, cond, now, clock).0)
  {
    hide Succeeds, PutIn, Met, Live;
    var at := Expiry(db, k, if cond.Some? && cond.value.Revision? && ttl.KeepTtl? then NoTtl else ttl, now);
    StepsSucceed(db, k, v, if at.Some? then at.value else None, meta, now, clock);
  }

  /** A read and then a write or a delete. */
  lemma TwoSucceed(db: Db, k: Bytes, v: Bytes, at: Option<U64>, now: U64, clock: nat -> nat)
    ensures var db1 := Touch(db, k, now, clock(0));
            Succeeds(db, db1) && Succeeds(db, PutIn(db1, k, v, at, None, clock(1))) && Succeeds(db, Bury(db1, k, clock(1)))
  {
    hide Succeeds, Touch, Bury, PutIn;
    var db1 := Touch(db, k, now, clock(0));
    StepsSucceed(db, k, v, at, None, now, clock(0));
    StepsSucceed(db1, k, v, at, None, now, clock(1));
    SucceedsTwice(db, db1, PutIn(db1, k, v, at, None, clock(1)));
    SucceedsTwice(db, db1, Bury(db1, k, clock(1)));
  }

  lemma SuccessorStep(db: Db, c: Command, now: U64, clock: nat -> nat, codec: Codec)
    ensures Succeeds(db, Step(db, c, now, clock, codec).0)
  {
    hide Succeeds, Touch, Bury, PutIn, Retime, TouchAll, BuryAll, PutAll, LiveKeys, LiveCount, Counter, Live;
    var db' := Step(db, c, now, clock, codec).0;
    StepsSucceed(db, [], [], None, None, now, clock(0));
    match c {
      case MGetCmd(ks) => BatchesSucceed(db, ks, [], now, clock);
      case DelCmd(ks) => BatchesSucceed(db, ks, [], now, clock);
      case MSetCmd(pairs) => BatchesSucceed(db, [], pairs, now, clock);
      case GetCmd(k) => StepsSucceed(db, k, [], None, None, now, clock(0));
      case TtlCmd(k) => StepsSucceed(db, k, [], None, None, now, clock(0));
      case DelRevCmd(k, _) => StepsSucceed(db, k, [], None, None, now, clock(0));
      case ExpireCmd(k, ms) => StepsSucceed(db, k, [], Deadline(now, ms), None, now, clock(0));
      case PersistCmd(k) => StepsSucceed(db, k, [], None, None, now, clock(0));
      case GetExCmd(k, ttl) => StepsSucceed(db, k, [], if ttl.ForMs? then Deadline(now, ttl.ms) else None, None, now, clock(0));
      case SetCmd(k, v, meta, ttl) => SetSucceeds(db, k, v, meta, ttl, None, now, clock(0));
      case SetIfCmd(k, v, meta, ttl, cond) => SetSucceeds(db, k, v, meta, ttl, Some(cond), now, clock(0));
      case GetSetCmd(k, v) => TwoSucceed(db, k, v, None, now, clock);
      case GetDelCmd(k) => TwoSucceed(db, k, [], None, now, clock);
      case IncrCmd(k, delta) =>
        var live := Live(db, k, now);
        var n := Counter(codec, live);
        if n.Some? {
          TwoSucceed(db, k, codec.render(n.value + delta), if live.Some? then live.value.expires else None, now, clock);
        } else {
          StepsSucceed(db, k, [], None, None, now, clock(0));
        }
      case _ =>
    }
  }
}
