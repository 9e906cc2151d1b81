/** Bytes, fixed-width integers and their little-endian encodings. */
module Types {

  type Byte = b: int | 0 <= b < 256

  type Bytes = seq<Byte>

  type U32 = n: int | 0 <= n < 0x1_0000_0000

  type U64 = n: int | 0 <= n < 0x1_0000_0000_0000_0000

  /** A content hash: 16 bytes of BLAKE3 output. */
  type Hash = h: Bytes | |h| == 16 witness [0, 0, 0, 0, 0, 0, 0, 0, 0, 0, 0, 0, 0, 0, 0, 0]

  datatype Option<+T> = None | Some(value: T)

  /** Lookup in a map, as the source's `get(..).copied()`. */
  function Get<K, V>(m: map<K, V>, k: K): (v: Option<V>) {
    if k in m then Some(m[k]) else None
  }

  /** Insert on `Some`, remove on `None`. */
  function Put<K(!new), V>(m: map<K, V>, k: K, v: Option<V>): (m': map<K, V>)
    ensures forall j :: Get(m', j) == if j == k then v else Get(m, j)
  {
    match v
    case Some(x) => m[k := x]
    case None => m - {k}
  }

  function Pow(base: nat, e: nat): nat {
    if e == 0 then 1 else base * Pow(base, e - 1)
  }

  /** Little-endian bytes of `n`, one per element of `like`. */
  function ToLE(n: nat, like: Bytes): (b: Bytes)
    ensures |b| == |like|
  {
    if like == [] then [] else [n % 256] + ToLE(n / 256, like[1..])
  }

  function FromLE(b: Bytes): nat {
    if b == [] then 0 else b[0] + 256 * FromLE(b[1..])
  }

  function Zeros(n: nat): (z: Bytes)
    ensures |z| == n && forall i :: 0 <= i < n ==> z[i] == 0
  {
    seq(n, _ => 0)
  }

  function LE4(n: nat): (b: Bytes)
    ensures |b| == 4
  {
    ToLE(n, Zeros(4))
  }

  function LE8(n: nat): (b: Bytes)
    ensures |b| == 8
  {
    ToLE(n, Zeros(8))
  }

  lemma {:induction false} FromToLE(n: nat, like: Bytes)
    requires n < Pow(256, |like|)
    ensures FromLE(ToLE(n, like)) == n
  {
    if like != [] {
      FromToLE(n / 256, like[1..]);
      assert ToLE(n, like)[1..] == ToLE(n / 256, like[1..]);
    }
  }

  lemma {:induction false} ToFromLE(b: Bytes, like: Bytes)
    requires |like| == |b|
    ensures ToLE(FromLE(b), like) == b
  {
    if b != [] {
      ToFromLE(b[1..], like[1..]);
      assert b == [b[0]] + b[1..];
    }
  }

  /** The bytes of a number go from its lowest to its highest. */
  lemma {:induction false} HighByte(b: Bytes, x: Byte)
    ensures FromLE(b + [x]) == FromLE(b) + Pow(256, |b|) * x
  {
    if b == [] {
      assert b + [x] == [x];
    } else {
      assert (b + [x])[1..] == b[1..] + [x];
      HighByte(b[1..], x);
      assert 256 * (Pow(256, |b| - 1) * x) == Pow(256, |b|) * x;
    }
  }

  lemma U32Width()
    ensures Pow(256, 4) == 0x1_0000_0000
  {
    assert Pow(256, 2) == 256 * Pow(256, 1) == 65536;
    assert Pow(256, 4) == 256 * Pow(256, 3) == 256 * (256 * Pow(256, 2));
  }

  lemma U64Width()
    ensures Pow(256, 8) == 0x1_0000_0000_0000_0000
  {
    U32Width();
    assert Pow(256, 6) == 256 * Pow(256, 5) == 256 * (256 * Pow(256, 4));
    assert Pow(256, 8) == 256 * Pow(256, 7) == 256 * (256 * Pow(256, 6));
  }

  lemma U32RoundTrip(n: U32)
    ensures FromLE(LE4(n)) == n
  {
    U32Width();
    FromToLE(n, Zeros(4));
  }

  lemma U64RoundTrip(n: U64)
    ensures FromLE(LE8(n)) == n
  {
    U64Width();
    FromToLE(n, Zeros(8));
  }

  lemma {:induction false} FromLEBound(b: Bytes)
    ensures FromLE(b) < Pow(256, |b|)
  {
    if b != [] {
      FromLEBound(b[1..]);
    }
  }

  predicate InI64(n: int) { -0x8000_0000_0000_0000 <= n < 0x8000_0000_0000_0000 }

  /** The decimal text of a counter; any rendering that parses back will do. */
  datatype Codec = Codec(render: int -> Bytes, parse: Bytes -> Option<int>)
  {
    ghost predicate Ok() { forall n :: InI64(n) ==> parse(render(n)) == Some(n) }
  }

  /** The clock, nudged past the last revision issued: the least that is above the one and not
      below the other. */
  function NextStamp(last: nat, clock: nat): (t: nat)
    ensures t > last && t >= clock && (t == clock || t == last + 1)
  {
    if clock > last then clock else last + 1
  }
}
