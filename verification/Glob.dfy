/** Glob matching of keys: what a pattern means, and the matcher that backtracks to the last
    star only. */
module Glob {
  import opened Types

  const STAR: Byte := 42
  const QUERY: Byte := 63
  const OPEN: Byte := 91
  const CLOSE: Byte := 93
  const CARET: Byte := 94
  const BANG: Byte := 33
  const DASH: Byte := 45

  type Range = (Byte, Byte)

  datatype Token = Star | Any | Lit(b: Byte) | Class(negate: bool, ranges: seq<Range>)

  predicate InRanges(ranges: seq<Range>, ch: Byte) {
    exists i :: 0 <= i < |ranges| && ranges[i].0 <= ch <= ranges[i].1
  }

  /** Whether a token other than a star accepts a byte. */
  predicate Fits(t: Token, ch: Byte) {
    match t
    case Star => false
    case Any => true
    case Lit(b) => ch == b
    case Class(negate, ranges) => negate != InRanges(ranges, ch)
  }

  /** The members of a class from position `i` on and the position after its `]`; none when
      it is never closed. A `]` in first place is a member. */
  function ClassFrom(b: Bytes, i: nat, start: nat): (r: Option<(seq<Range>, nat)>)
    ensures r.Some? ==> i < r.value.1 <= |b|
    decreases |b| - i
  {
    if i >= |b| then None
    else if b[i] == CLOSE && i > start then Some(([], i + 1))
    else
      var isRange := i + 2 < |b| && b[i + 1] == DASH && b[i + 2] != CLOSE;
      var rest := ClassFrom(b, if isRange then i + 3 else i + 1, start);
      if rest.None? then None
      else Some(([(b[i], if isRange then b[i + 2] else b[i])] + rest.value.0, rest.value.1))
  }

  function Negated(b: Bytes): bool {
    1 < |b| && (b[1] == CARET || b[1] == BANG)
  }

  /** The first token of a pattern and its length; an unclosed `[` is a literal. */
  function TokenAt(p: Bytes): (r: (Token, nat))
    requires p != []
    ensures 1 <= r.1 <= |p|
  {
    if p[0] == STAR then (Star, 1)
    else if p[0] == QUERY then (Any, 1)
    else if p[0] == OPEN then
      var start := if Negated(p) then 2 else 1;
      var c := ClassFrom(p, start, start);
      if c.None? then (Lit(OPEN), 1) else (Class(Negated(p), c.value.0), c.value.1)
    else (Lit(p[0]), 1)
  }

  function Tokenize(p: Bytes): seq<Token>
    decreases |p|
  {
    if p == [] then [] else [TokenAt(p).0] + Tokenize(p[TokenAt(p).1..])
  }

  /** The meaning of a pattern: a star stands for any bytes, every other token for one. */
  predicate Accepts(ts: seq<Token>, s: Bytes)
    decreases |ts|
  {
    if ts == [] then s == []
    else if ts[0].Star? then exists i :: 0 <= i <= |s| && Accepts(ts[1..], s[i..])
    else s != [] && Fits(ts[0], s[0]) && Accepts(ts[1..], s[1..])
  }

  predicate Matches(p: Bytes, s: Bytes) {
    Accepts(Tokenize(p), s)
  }

  /** The rest of the pattern from `pi` accepts the rest of the key from `si`. */
  predicate From(p: Bytes, s: Bytes, pi: nat, si: nat)
    requires pi <= |p| && si <= |s|
  {
    Accepts(Tokenize(p[pi..]), s[si..])
  }

  lemma FromEnd(p: Bytes, s: Bytes, si: nat)
    requires si <= |s|
    ensures From(p, s, |p|, si) <==> si == |s|
  {
    assert p[|p|..] == [];
  }

  lemma FromToken(p: Bytes, s: Bytes, pi: nat, si: nat)
    requires pi < |p| && si <= |s| && p[pi] != STAR
    ensures var (t, n) := TokenAt(p[pi..]);
            From(p, s, pi, si) <==> si < |s| && Fits(t, s[si]) && From(p, s, pi + n, si + 1)
  {
    var (t, n) := TokenAt(p[pi..]);
    assert p[pi..][n..] == p[pi + n..];
    assert Tokenize(p[pi..])[1..] == Tokenize(p[pi + n..]);
    if si < |s| {
      assert s[si..][1..] == s[si + 1..];
    }
  }

  /** A star takes nothing, or one more byte. */
  lemma FromStar(p: Bytes, s: Bytes, pi: nat, si: nat)
    requires pi < |p| && si <= |s| && p[pi] == STAR
    ensures From(p, s, pi, si) <==> From(p, s, pi + 1, si) || (si < |s| && From(p, s, pi, si + 1))
  {
    StarSplits(p, s, pi, si);
    if si < |s| {
      StarSplits(p, s, pi, si + 1);
    }
  }

  lemma StarSplits(p: Bytes, s: Bytes, pi: nat, si: nat)
    requires pi < |p| && si <= |s| && p[pi] == STAR
    ensures var after := pi + 1;
            From(p, s, pi, si) <==> exists j :: si <= j <= |s| && From(p, s, after, j)
  {
    var after := pi + 1;
    var ts := Tokenize(p[pi..]);
    assert p[pi..][1..] == p[pi + 1..];
    assert ts[1..] == Tokenize(p[pi + 1..]);
    if From(p, s, pi, si) {
      var i :| 0 <= i <= |s[si..]| && Accepts(ts[1..], s[si..][i..]);
      assert s[si..][i..] == s[si + i..];
      assert From(p, s, after, si + i);
    }
    if j :| si <= j <= |s| && From(p, s, after, j) {
      assert s[si..][j - si..] == s[j..];
      assert Accepts(ts[1..], s[si..][j - si..]);
    }
  }

  /** The matcher's loop as the source has it: a byte equal to the pattern's is consumed
      before a star is considered, and only the last star is remembered. */
  predicate Loop(p: Bytes, s: Bytes, pi: nat, si: nat, star: Option<nat>, starSi: nat)
    requires pi <= |p| && starSi <= si <= |s| && (star.Some? ==> star.value < pi)
    decreases |s| - starSi, |p| - pi
  {
    if si == |s| then OnlyStars(p, pi)
    else if pi < |p| && p[pi] == OPEN && Fits(TokenAt(p[pi..]).0, s[si]) then
      Loop(p, s, pi + TokenAt(p[pi..]).1, si + 1, star, starSi)
    else if pi < |p| && p[pi] != OPEN && (p[pi] == QUERY || p[pi] == s[si]) then
      Loop(p, s, pi + 1, si + 1, star, starSi)
    else if pi < |p| && p[pi] == STAR then Loop(p, s, pi + 1, si, Some(pi), si)
    else if star.Some? then Loop(p, s, star.value + 1, starSi + 1, star, starSi + 1)
    else false
  }

  predicate OnlyStars(p: Bytes, pi: nat)
    requires pi <= |p|
    decreases |p| - pi
  {
    pi == |p| || (p[pi] == STAR && OnlyStars(p, pi + 1))
  }

  predicate IsMeta(b: Byte) {
    b == STAR || b == QUERY || b == OPEN
  }

  /** Position of the first metacharacter, or the length. */
  function FirstMeta(p: Bytes): (n: nat)
    ensures n <= |p|
  {
    if p == [] || IsMeta(p[0]) then 0 else 1 + FirstMeta(p[1..])
  }

  /** The matcher with its fast paths for a literal prefix. */
  predicate Glob(p: Bytes, s: Bytes) {
    var n := FirstMeta(p);
    if n == |p| then p == s
    else if n == 0 then Loop(p, s, 0, 0, None, 0)
    else if |s| < n || s[..n] != p[..n] then false
    else if n + 1 == |p| && p[n] == STAR then true
    else Loop(p, s, n, n, None, n)
  }

  lemma {:induction false} OnlyStarsMatch(p: Bytes, s: Bytes, pi: nat)
    requires pi <= |p|
    ensures OnlyStars(p, pi) <==> From(p, s, pi, |s|)
    decreases |p| - pi
  {
    hide From;
    if pi == |p| {
      FromEnd(p, s, |s|);
    } else if p[pi] == STAR {
      FromStar(p, s, pi, |s|);
      OnlyStarsMatch(p, s, pi + 1);
    } else {
      FromToken(p, s, pi, |s|);
    }
  }

  /** The tokens since the last star are not stars: wherever that star could have ended, the
      rest of the pattern is as far into the key as it is now. */
  ghost predicate Middle(p: Bytes, s: Bytes, pi: nat, si: nat, star: Option<nat>, starSi: nat)
    requires pi <= |p| && starSi <= si <= |s|
  {
    star.Some? ==>
      star.value < pi && p[star.value] == STAR && AllShifted(p, s, star.value + 1, starSi, pi, si - starSi)
  }

  ghost predicate AllShifted(p: Bytes, s: Bytes, after: nat, from: nat, pi: nat, d: nat)
    requires after <= |p| && pi <= |p|
  {
    forall j :: from <= j <= |s| && From(p, s, after, j) ==> Shifted(p, s, pi, j, d)
  }

  predicate Shifted(p: Bytes, s: Bytes, pi: nat, j: nat, d: nat)
    requires pi <= |p|
  {
    j + d <= |s| && From(p, s, pi, j + d)
  }

  /** What is left to try: go on from here, or let the last star take more. */
  ghost predicate Open(p: Bytes, s: Bytes, pi: nat, si: nat, star: Option<nat>, starSi: nat)
    requires pi <= |p| && starSi <= si <= |s| && (star.Some? ==> star.value < pi)
  {
    From(p, s, pi, si) || (star.Some? && starSi < |s| && From(p, s, star.value, starSi + 1))
  }

  lemma MiddleNext(p: Bytes, s: Bytes, pi: nat, si: nat, star: Option<nat>, starSi: nat)
    requires pi < |p| && starSi <= si < |s| && p[pi] != STAR && Middle(p, s, pi, si, star, starSi)
    ensures Middle(p, s, pi + TokenAt(p[pi..]).1, si + 1, star, starSi)
  {
    hide From, TokenAt;
    if star.Some? {
      var after, n := star.value + 1, TokenAt(p[pi..]).1;
      forall j | starSi <= j <= |s| && From(p, s, after, j) ensures Shifted(p, s, pi + n, j, si + 1 - starSi) {
        assert Shifted(p, s, pi, j, si - starSi);
        FromToken(p, s, pi, j + (si - starSi));
      }
    }
  }

  /** A new star makes the old one redundant: whatever the old one could still take, the new
      one can. */
  lemma NewStar(p: Bytes, s: Bytes, pi: nat, si: nat, star: Option<nat>, starSi: nat)
    requires pi < |p| && starSi <= si < |s| && p[pi] == STAR && Middle(p, s, pi, si, star, starSi)
    ensures Open(p, s, pi, si, star, starSi) <==> Open(p, s, pi + 1, si, Some(pi), si)
    ensures Middle(p, s, pi + 1, si, Some(pi), si)
  {
    hide From;
    FromStar(p, s, pi, si);
    if star.Some? && starSi < |s| && From(p, s, star.value, starSi + 1) {
      var after := star.value + 1;
      StarSplits(p, s, star.value, starSi + 1);
      var j :| starSi + 1 <= j <= |s| && From(p, s, after, j);
      assert Shifted(p, s, pi, j, si - starSi);
      StarTakes(p, s, pi, si, j + (si - starSi));
    }
  }

  lemma StarTakes(p: Bytes, s: Bytes, pi: nat, si: nat, sj: nat)
    requires pi < |p| && p[pi] == STAR && si <= sj <= |s| && From(p, s, pi, sj)
    ensures From(p, s, pi, si)
  {
    hide From;
    StarSplits(p, s, pi, sj);
    StarSplits(p, s, pi, si);
  }

  /** On keys without a star byte the loop decides what is left to try. */
  lemma {:induction false} LoopExact(p: Bytes, s: Bytes, pi: nat, si: nat, star: Option<nat>, starSi: nat)
    requires pi <= |p| && starSi <= si <= |s| && (star.Some? ==> star.value < pi)
    requires STAR !in s && Middle(p, s, pi, si, star, starSi)
    ensures Loop(p, s, pi, si, star, starSi) <==> Open(p, s, pi, si, star, starSi)
    decreases |s| - starSi, |p| - pi
  {
    hide From, TokenAt, Middle, Fits, OnlyStars;
    if si == |s| {
      AtEnd(p, s, pi, star, starSi);
    } else if pi < |p| && p[pi] == STAR {
      NewStar(p, s, pi, si, star, starSi);
      LoopExact(p, s, pi + 1, si, Some(pi), si);
    } else if pi < |p| && Fits(TokenAt(p[pi..]).0, s[si]) {
      Consume(p, s, pi, si, star, starSi);
      LoopExact(p, s, pi + TokenAt(p[pi..]).1, si + 1, star, starSi);
    } else {
      Stuck(p, s, pi, si);
      if star.Some? {
        Backtrack(p, s, pi, si, star, starSi);
        LoopExact(p, s, star.value + 1, starSi + 1, star, starSi + 1);
      }
    }
  }

  /** At the end of the key, letting the last star take more cannot help. */
  lemma AtEnd(p: Bytes, s: Bytes, pi: nat, star: Option<nat>, starSi: nat)
    requires pi <= |p| && starSi <= |s| && (star.Some? ==> star.value < pi) && Middle(p, s, pi, |s|, star, starSi)
    ensures OnlyStars(p, pi) <==> Open(p, s, pi, |s|, star, starSi)
  {
    hide From;
    OnlyStarsMatch(p, s, pi);
    if star.Some? && starSi < |s| {
      StarSplits(p, s, star.value, starSi + 1);
    }
  }

  /** A token that accepts the byte: the loop and the meaning both move on. */
  lemma Consume(p: Bytes, s: Bytes, pi: nat, si: nat, star: Option<nat>, starSi: nat)
    requires pi < |p| && starSi <= si < |s| && p[pi] != STAR && (star.Some? ==> star.value < pi)
    requires Fits(TokenAt(p[pi..]).0, s[si]) && Middle(p, s, pi, si, star, starSi)
    ensures var n := TokenAt(p[pi..]).1;
            && Middle(p, s, pi + n, si + 1, star, starSi)
            && (Open(p, s, pi, si, star, starSi) <==> Open(p, s, pi + n, si + 1, star, starSi))
            && (p[pi] == OPEN || ((p[pi] == QUERY || p[pi] == s[si]) && n == 1))
  {
    FromToken(p, s, pi, si);
    MiddleNext(p, s, pi, si, star, starSi);
  }

  /** No token, or one that rejects the byte. */
  lemma Stuck(p: Bytes, s: Bytes, pi: nat, si: nat)
    requires pi <= |p| && si < |s|
    requires pi < |p| ==> p[pi] != STAR && !Fits(TokenAt(p[pi..]).0, s[si])
    ensures !From(p, s, pi, si)
    ensures pi < |p| ==> p[pi] == OPEN || !(p[pi] == QUERY || p[pi] == s[si])
  {
    if pi == |p| {
      FromEnd(p, s, si);
    } else {
      FromToken(p, s, pi, si);
    }
  }

  lemma Backtrack(p: Bytes, s: Bytes, pi: nat, si: nat, star: Option<nat>, starSi: nat)
    requires pi <= |p| && starSi <= si < |s| && star.Some? && Middle(p, s, pi, si, star, starSi) && !From(p, s, pi, si)
    ensures star.value < pi && Middle(p, s, star.value + 1, starSi + 1, star, starSi + 1)
    ensures Open(p, s, pi, si, star, starSi) <==> Open(p, s, star.value + 1, starSi + 1, star, starSi + 1)
  {
    hide From;
    FromStar(p, s, star.value, starSi + 1);
  }

  /** Whatever the loop accepts is accepted by the meaning, star bytes or not. */
  lemma {:induction false} LoopSound(p: Bytes, s: Bytes, pi: nat, si: nat, star: Option<nat>, starSi: nat)
    requires pi <= |p| && starSi <= si <= |s| && (star.Some? ==> star.value < pi && p[star.value] == STAR)
    ensures Loop(p, s, pi, si, star, starSi) ==> From(p, s, pi, si) || (star.Some? && From(p, s, star.value, starSi))
    decreases |s| - starSi, |p| - pi
  {
    hide From, TokenAt, Fits, OnlyStars;
    if si == |s| {
      OnlyStarsMatch(p, s, pi);
    } else if pi < |p| && p[pi] == OPEN && Fits(TokenAt(p[pi..]).0, s[si]) {
      FromToken(p, s, pi, si);
      LoopSound(p, s, pi + TokenAt(p[pi..]).1, si + 1, star, starSi);
    } else if pi < |p| && p[pi] != OPEN && (p[pi] == QUERY || p[pi] == s[si]) {
      LiteralSound(p, s, pi, si);
      LoopSound(p, s, pi + 1, si + 1, star, starSi);
    } else if pi < |p| && p[pi] == STAR {
      FromStar(p, s, pi, si);
      LoopSound(p, s, pi + 1, si, Some(pi), si);
    } else if star.Some? {
      FromStar(p, s, star.value, starSi + 1);
      FromStar(p, s, star.value, starSi);
      LoopSound(p, s, star.value + 1, starSi + 1, star, starSi + 1);
    }
  }

  lemma LiteralSound(p: Bytes, s: Bytes, pi: nat, si: nat)
    requires pi < |p| && si < |s| && p[pi] != OPEN && (p[pi] == QUERY || p[pi] == s[si])
    ensures From(p, s, pi + 1, si + 1) ==> From(p, s, pi, si)
  {
    if p[pi] == STAR {
      hide From;
      FromStar(p, s, pi, si + 1);
      FromStar(p, s, pi, si);
    } else {
      FromToken(p, s, pi, si);
    }
  }

  /** A literal prefix has to match byte by byte. */
  lemma {:induction false} PrefixMatch(p: Bytes, s: Bytes, n: nat)
    requires n <= FirstMeta(p)
    ensures From(p, s, 0, 0) <==> n <= |s| && s[..n] == p[..n] && From(p, s, n, n)
  {
    if n > 0 {
      PrefixMatch(p, s, n - 1);
      hide From;
      NotMeta(p, n - 1);
      if n - 1 <= |s| {
        FromToken(p, s, n - 1, n - 1);
      }
      if n <= |s| {
        assert s[..n] == s[..n - 1] + [s[n - 1]];
        assert p[..n] == p[..n - 1] + [p[n - 1]];
      }
    }
  }

  lemma {:induction false} NotMeta(p: Bytes, i: nat)
    requires i < FirstMeta(p)
    ensures !IsMeta(p[i])
  {
    if i > 0 {
      NotMeta(p[1..], i - 1);
    }
  }

  lemma Whole(p: Bytes, s: Bytes)
    ensures From(p, s, 0, 0) <==> Matches(p, s)
  {
    assert p[0..] == p && s[0..] == s;
  }

  /** The fast paths change nothing. */
  lemma FastPaths(p: Bytes, s: Bytes)
    ensures Glob(p, s) ==> Matches(p, s)
    ensures STAR !in s ==> (Glob(p, s) <==> Matches(p, s))
  {
    hide From, Loop, Matches;
    var n := FirstMeta(p);
    Whole(p, s);
    PrefixMatch(p, s, n);
    if n == |p| {
      if n <= |s| {
        FromEnd(p, s, n);
        assert p[..n] == p && s[..|s|] == s;
      }
    } else if n <= |s| {
      if STAR !in s {
        LoopExact(p, s, n, n, None, n);
      }
      LoopSound(p, s, n, n, None, n);
      if n + 1 == |p| && p[n] == STAR {
        StarSplits(p, s, n, n);
        FromEnd(p, s, |s|);
        var after := n + 1;
        assert From(p, s, after, |s|);
      }
    }
  }

  function Queries(n: nat): (q: Bytes)
    ensures |q| == n && forall i :: 0 <= i < n ==> q[i] == QUERY
  {
    seq(n, _ => QUERY)
  }

  /** A pattern the matcher gets wrong on a key with a star byte at `at`: the star of the
      pattern is spent on that byte and forgotten. */
  function Culprit(s: Bytes, at: nat): Bytes
    requires at < |s|
  {
    Queries(at) + [STAR] + Queries(|s| - at)
  }

  lemma {:induction false} QueriesMatch(p: Bytes, s: Bytes, pi: nat, si: nat)
    requires pi <= |p| && si <= |s| && |p| - pi == |s| - si && forall i :: pi <= i < |p| ==> p[i] == QUERY
    ensures From(p, s, pi, si)
    decreases |p| - pi
  {
    if pi == |p| {
      FromEnd(p, s, si);
    } else {
      QueriesMatch(p, s, pi + 1, si + 1);
      FromToken(p, s, pi, si);
    }
  }

  /** Over the queries in front of the star the loop and the meaning go in step. */
  lemma {:induction false} QueriesThen(p: Bytes, s: Bytes, pi: nat, n: nat)
    requires pi <= n <= |p| && n <= |s| && forall i :: pi <= i < n ==> p[i] == QUERY
    ensures Loop(p, s, pi, pi, None, 0) == Loop(p, s, n, n, None, 0)
    ensures From(p, s, n, n) ==> From(p, s, pi, pi)
    decreases n - pi
  {
    if pi < n {
      QueriesThen(p, s, pi + 1, n);
      hide From;
      FromToken(p, s, pi, pi);
    }
  }

  /** Too many queries for what is left of the key. */
  lemma {:induction false} QueriesLeft(p: Bytes, s: Bytes, pi: nat, si: nat)
    requires pi <= |p| && si <= |s| && |p| - pi == |s| - si + 1 && forall i :: pi <= i < |p| ==> p[i] == QUERY
    ensures !Loop(p, s, pi, si, None, 0)
    decreases |p| - pi
  {
    if si < |s| {
      QueriesLeft(p, s, pi + 1, si + 1);
    }
  }

  lemma CulpritFails(s: Bytes, at: nat)
    requires at < |s| && s[at] == STAR
    ensures Matches(Culprit(s, at), s) && !Glob(Culprit(s, at), s)
  {
    var p := Culprit(s, at);
    assert |p| == |s| + 1 && p[at] == STAR;
    assert forall i :: 0 <= i < |p| && i != at ==> p[i] == QUERY;
    hide From, Loop, Matches, Queries;
    Whole(p, s);
    QueriesThen(p, s, 0, at);
    QueriesMatch(p, s, at + 1, at);
    FromStar(p, s, at, at);
    QueriesLeft(p, s, at + 1, at + 1);
    SpentStar(p, s, at);
    assert FirstMeta(p) == 0 by { assert IsMeta(p[0]); }
  }

  lemma SpentStar(p: Bytes, s: Bytes, at: nat)
    requires at < |p| && at < |s| && p[at] == STAR && s[at] == STAR
    ensures Loop(p, s, at, at, None, 0) == Loop(p, s, at + 1, at + 1, None, 0)
  {
  }

  /** The matcher is right about a key for every pattern exactly when the key holds no star
      byte; what it accepts is always a match. */
  lemma GlobExact(s: Bytes)
    ensures forall p :: Glob(p, s) ==> Matches(p, s)
    ensures (forall p :: Glob(p, s) <==> Matches(p, s)) <==> STAR !in s
  {
    hide Glob, Matches;
    forall p
      ensures Glob(p, s) ==> Matches(p, s)
      ensures STAR !in s ==> (Glob(p, s) <==> Matches(p, s))
    {
      FastPaths(p, s);
    }
    if STAR in s {
      var at :| 0 <= at < |s| && s[at] == STAR;
      CulpritFails(s, at);
    }
  }

  /** `match_bracket`: one byte against the class at the start of `b`. */
  method MatchBracket(b: Bytes, ch: Byte) returns (ok: bool, consumed: nat)
    requires b != [] && b[0] == OPEN
    ensures ok == Fits(TokenAt(b).0, ch) && consumed == TokenAt(b).1
  {
    hide InRanges;
    var negate := 1 < |b| && (b[1] == CARET || b[1] == BANG);
    var start := if negate then 2 else 1;
    ghost var c := ClassFrom(b, start, start);
    var i, matched := start, false;
    NoRanges(ch);
    while true
      invariant start <= i
      invariant var rest := ClassFrom(b, i, start);
                && rest.Some? == c.Some?
                && (c.Some? ==> rest.value.1 == c.value.1 && InRanges(c.value.0, ch) == (matched || InRanges(rest.value.0, ch)))
      decreases |b| - i
    {
      if i >= |b| {
        return ch == OPEN, 1;
      }
      if b[i] == CLOSE && i > start {
        return negate != matched, i + 1;
      }
      FirstRange(b, i, start, ch);
      if i + 2 < |b| && b[i + 1] == DASH && b[i + 2] != CLOSE {
        if b[i] <= ch <= b[i + 2] {
          matched := true;
        }
        i := i + 3;
      } else {
        if ch == b[i] {
          matched := true;
        }
        i := i + 1;
      }
    }
  }

  lemma NoRanges(ch: Byte)
    ensures !InRanges([], ch)
  {
  }

  lemma FirstRange(b: Bytes, i: nat, start: nat, ch: Byte)
    requires i < |b| && !(b[i] == CLOSE && i > start)
    ensures var isRange := i + 2 < |b| && b[i + 1] == DASH && b[i + 2] != CLOSE;
            var rest := ClassFrom(b, if isRange then i + 3 else i + 1, start);
            var all := ClassFrom(b, i, start);
            && all.Some? == rest.Some?
            && (all.Some? ==> && all.value.1 == rest.value.1
                              && InRanges(all.value.0, ch) == ((b[i] <= ch <= if isRange then b[i + 2] else b[i]) || InRanges(rest.value.0, ch)))
  {
    var isRange := i + 2 < |b| && b[i + 1] == DASH && b[i + 2] != CLOSE;
    var rest := ClassFrom(b, if isRange then i + 3 else i + 1, start);
    if rest.Some? {
      var r := (b[i], if isRange then b[i + 2] else b[i]);
      var all := [r] + rest.value.0;
      assert all[0] == r;
      assert forall j :: 0 <= j < |rest.value.0| ==> all[j + 1] == rest.value.0[j];
      if j :| 0 <= j < |rest.value.0| && rest.value.0[j].0 <= ch <= rest.value.0[j].1 {
        assert all[j + 1].0 <= ch <= all[j + 1].1;
      }
    }
  }

  /** `memchr3` over the metacharacters. */
  method FindMeta(p: Bytes) returns (n: nat)
    ensures n == FirstMeta(p)
  {
    n := 0;
    while n < |p| && !IsMeta(p[n])
      invariant n <= |p| && FirstMeta(p) == n + FirstMeta(p[n..])
    {
      assert p[n..][1..] == p[n + 1..];
      n := n + 1;
    }
  }

  /** The loop of `glob_match`, entered after a literal prefix of length `at`. */
  method MatchLoop(p: Bytes, s: Bytes, at: nat) returns (ok: bool)
    requires at <= |p| && at <= |s|
    ensures ok == Loop(p, s, at, at, None, at)
  {
    hide Fits, OnlyStars, TokenAt;
    var pi: nat, si: nat, star: Option<nat>, starSi: nat := at, at, None, at;
    while si < |s|
      invariant pi <= |p| && starSi <= si <= |s| && (star.Some? ==> star.value < pi)
      invariant Loop(p, s, at, at, None, at) == Loop(p, s, pi, si, star, starSi)
      decreases |s| - starSi, |p| - pi
    {
      if pi < |p| && p[pi] == OPEN {
        var fits, consumed := MatchBracket(p[pi..], s[si]);
        if fits {
          pi, si := pi + consumed, si + 1;
        } else if star.Some? {
          pi, starSi := star.value + 1, starSi + 1;
          si := starSi;
        } else {
          return false;
        }
      } else if pi < |p| && (p[pi] == QUERY || p[pi] == s[si]) {
        pi, si := pi + 1, si + 1;
      } else if pi < |p| && p[pi] == STAR {
        star, starSi := Some(pi), si;
        pi := pi + 1;
      } else if star.Some? {
        pi, starSi := star.value + 1, starSi + 1;
        si := starSi;
      } else {
        return false;
      }
    }
    ok := TrailingStars(p, pi);
  }

  method TrailingStars(p: Bytes, from: nat) returns (ok: bool)
    requires from <= |p|
    ensures ok == OnlyStars(p, from)
  {
    var pi := from;
    while pi < |p| && p[pi] == STAR
      invariant from <= pi <= |p| && OnlyStars(p, from) == OnlyStars(p, pi)
    {
      pi := pi + 1;
    }
    return pi == |p|;
  }

  /** `glob_match`. */
  method GlobMatch(p: Bytes, s: Bytes) returns (ok: bool)
    ensures ok == Glob(p, s)
    ensures ok ==> Matches(p, s)
    ensures STAR !in s ==> (ok <==> Matches(p, s))
  {
    hide Matches, Loop;
    FastPaths(p, s);
    var first := FindMeta(p);
    if first == |p| {
      return p == s;
    }
    if first > 0 {
      if |s| < first || s[..first] != p[..first] {
        return false;
      }
      if first + 1 == |p| && p[first] == STAR {
        return true;
      }
    }
    ok := MatchLoop(p, s, first);
  }
}
