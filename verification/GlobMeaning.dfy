/** What the pieces of a pattern stand for, said without the parser: plain bytes, `?`, `*`,
    classes, their negations, ranges, and a bracket that is never closed. */
module GlobMeaning {
  import opened Types
  import opened Glob

  /** The members of a plain class: no dash, a `]` in first place only. */
  predicate PlainMembers(cs: Bytes) {
    cs != [] && (forall i :: 0 <= i < |cs| ==> cs[i] != DASH) && forall i :: 0 < i < |cs| ==> cs[i] != CLOSE
  }

  predicate NegationMark(b: Byte) {
    b == CARET || b == BANG
  }

  /** The single bytes `cs`, as ranges. */
  function Singles(cs: Bytes): (rs: seq<Range>)
    ensures forall ch: Byte :: InRanges(rs, ch) <==> ch in cs
  {
    if cs == [] then []
    else
      var rest := Singles(cs[1..]);
      SinglesNext(cs, rest);
      [(cs[0], cs[0])] + rest
  }

  lemma SinglesNext(cs: Bytes, rest: seq<Range>)
    requires cs != [] && forall ch: Byte :: InRanges(rest, ch) <==> ch in cs[1..]
    ensures forall ch: Byte :: InRanges([(cs[0], cs[0])] + rest, ch) <==> ch in cs
  {
    var rs := [(cs[0], cs[0])] + rest;
    forall ch: Byte ensures InRanges(rs, ch) <==> ch in cs {
      if InRanges(rest, ch) {
        var i :| 0 <= i < |rest| && rest[i].0 <= ch <= rest[i].1;
        assert rs[i + 1] == rest[i];
      }
      if ch == cs[0] {
        assert rs[0].0 <= ch <= rs[0].1;
      }
      if InRanges(rs, ch) && ch != cs[0] {
        var i :| 0 <= i < |rs| && rs[i].0 <= ch <= rs[i].1;
        assert rest[i - 1] == rs[i];
      }
    }
  }

  /** Reading a plain class to its `]`. */
  lemma {:induction false} PlainClass(b: Bytes, start: nat, cs: Bytes, j: nat)
    requires PlainMembers(cs) && j <= |cs| && start + |cs| < |b| && b[start..start + |cs|] == cs && b[start + |cs|] == CLOSE
    ensures ClassFrom(b, start + j, start) == Some((Singles(cs[j..]), start + |cs| + 1))
    decreases |cs| - j
  {
    var i := start + j;
    if j < |cs| {
      assert b[i] == cs[j];
      assert i + 1 < |b| && (j + 1 < |cs| ==> b[i + 1] == cs[j + 1]);
      PlainClass(b, start, cs, j + 1);
      assert cs[j..][1..] == cs[j + 1..];
    } else {
      assert cs[j..] == [];
    }
  }

  /** A pattern that starts with some token, by its meaning. */
  lemma HeadMeans(p: Bytes, s: Bytes)
    requires p != [] && p[0] != STAR
    ensures var (t, n) := TokenAt(p);
            Matches(p, s) <==> s != [] && Fits(t, s[0]) && Matches(p[n..], s[1..])
  {
    hide TokenAt;
    assert Tokenize(p)[1..] == Tokenize(p[TokenAt(p).1..]);
    StarToken(p);
  }

  lemma StarToken(p: Bytes)
    requires p != []
    ensures TokenAt(p).0.Star? <==> p[0] == STAR
  {
  }

  /** A star stands for any bytes. */
  lemma StarMeans(p: Bytes, s: Bytes)
    ensures Matches([STAR] + p, s) <==> exists i :: 0 <= i <= |s| && Matches(p, s[i..])
  {
    var q := [STAR] + p;
    assert q[1..] == p;
    assert Tokenize(q)[1..] == Tokenize(p);
    if i :| 0 <= i <= |s| && Matches(p, s[i..]) {
      assert Accepts(Tokenize(q)[1..], s[i..]);
    }
    if Matches(q, s) {
      var i :| 0 <= i <= |s| && Accepts(Tokenize(q)[1..], s[i..]);
      assert Matches(p, s[i..]);
    }
  }

  /** A query stands for any one byte, and a byte that is no metacharacter for itself. */
  lemma ByteMeans(b: Byte, p: Bytes, s: Bytes)
    requires b != STAR && b != OPEN
    ensures Matches([b] + p, s) <==> s != [] && (b == QUERY || s[0] == b) && Matches(p, s[1..])
  {
    HeadMeans([b] + p, s);
    assert ([b] + p)[1..] == p;
  }

  /** A pattern without metacharacters matches exactly itself. */
  lemma {:induction false} PlainMeans(p: Bytes, s: Bytes)
    requires forall i :: 0 <= i < |p| ==> p[i] != STAR && p[i] != QUERY && p[i] != OPEN
    ensures Matches(p, s) <==> p == s
    decreases |p|
  {
    if p != [] {
      assert p == [p[0]] + p[1..];
      ByteMeans(p[0], p[1..], s);
      if s != [] {
        PlainMeans(p[1..], s[1..]);
        assert s == [s[0]] + s[1..];
      }
    }
  }

  /** `[cs]` stands for one of the bytes `cs`. */
  lemma ClassMeans(cs: Bytes, p: Bytes, s: Bytes)
    requires PlainMembers(cs) && !NegationMark(cs[0])
    ensures Matches([OPEN] + cs + [CLOSE] + p, s) <==> s != [] && s[0] in cs && Matches(p, s[1..])
  {
    var q := [OPEN] + cs + [CLOSE] + p;
    assert q[1..1 + |cs|] == cs && q[1] == cs[0];
    PlainClass(q, 1, cs, 0);
    assert cs[0..] == cs;
    HeadMeans(q, s);
    assert q[|cs| + 2..] == p;
  }

  /** `[^cs]` and `[!cs]` stand for one byte that is none of `cs`. */
  lemma NegatedMeans(mark: Byte, cs: Bytes, p: Bytes, s: Bytes)
    requires PlainMembers(cs) && NegationMark(mark)
    ensures Matches([OPEN, mark] + cs + [CLOSE] + p, s) <==> s != [] && s[0] !in cs && Matches(p, s[1..])
  {
    var q := [OPEN, mark] + cs + [CLOSE] + p;
    assert q[2..2 + |cs|] == cs && q[1] == mark;
    PlainClass(q, 2, cs, 0);
    assert cs[0..] == cs;
    HeadMeans(q, s);
    assert q[|cs| + 3..] == p;
  }

  /** `[a-b]` stands for one byte from `a` to `b`. */
  lemma RangeMeans(a: Byte, b: Byte, p: Bytes, s: Bytes)
    requires !NegationMark(a) && b != CLOSE
    ensures Matches([OPEN, a, DASH, b, CLOSE] + p, s) <==> s != [] && a <= s[0] <= b && Matches(p, s[1..])
  {
    var q := [OPEN, a, DASH, b, CLOSE] + p;
    assert ClassFrom(q, 4, 1) == Some(([], 5));
    assert ClassFrom(q, 1, 1) == Some(([(a, b)] + [], 5));
    var rs := [(a, b)] + [];
    forall ch: Byte ensures InRanges(rs, ch) <==> a <= ch <= b {
      if a <= ch <= b {
        assert rs[0].0 <= ch <= rs[0].1;
      }
    }
    HeadMeans(q, s);
    assert q[5..] == p;
  }

  lemma {:induction false} NeverClosed(b: Bytes, i: nat, start: nat)
    requires forall j :: i <= j < |b| ==> b[j] != CLOSE
    ensures ClassFrom(b, i, start) == None
    decreases |b| - i
  {
    if i < |b| {
      NeverClosed(b, i + 1, start);
      if i + 2 < |b| {
        NeverClosed(b, i + 3, start);
      }
    }
  }

  /** A bracket that is never closed stands for itself. */
  lemma UnclosedMeans(p: Bytes, s: Bytes)
    requires CLOSE !in p
    ensures Matches([OPEN] + p, s) <==> s != [] && s[0] == OPEN && Matches(p, s[1..])
  {
    var q := [OPEN] + p;
    forall j | 1 <= j < |q| ensures q[j] != CLOSE {
      assert q[j] == p[j - 1];
    }
    NeverClosed(q, if Negated(q) then 2 else 1, if Negated(q) then 2 else 1);
    HeadMeans(q, s);
    assert q[1..] == p;
  }
}
