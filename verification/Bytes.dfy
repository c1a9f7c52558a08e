/** Bytes, slices of them, and big-endian numbers. */
module Bytes {
  import opened Common

  type Byte = b: nat | b < 256

  type Bytes = seq<Byte>

  function Zeros(n: nat): (s: Bytes)
    ensures |s| == n
  {
    seq(n, _ => 0)
  }

  /** The bytes e stand in d at offset o. */
  ghost predicate At(d: Bytes, o: nat, e: Bytes) {
    o + |e| <= |d| && forall k {:trigger e[k]} :: 0 <= k < |e| ==> d[o + k] == e[k]
  }

  lemma AtSlice(d: Bytes, o: nat, e: Bytes)
    requires At(d, o, e)
    ensures d[o..o + |e|] == e
  {
  }

  lemma AtAll(d: Bytes)
    ensures At(d, 0, d)
  {
  }

  lemma AtSplit(d: Bytes, o: nat, a: Bytes, b: Bytes)
    requires At(d, o, a + b)
    ensures At(d, o, a) && At(d, o + |a|, b)
  {
    var e := a + b;
    forall k | 0 <= k < |a| ensures d[o + k] == a[k] {
      assert e[k] == a[k];
    }
    forall k | 0 <= k < |b| ensures d[o + |a| + k] == b[k] {
      assert e[|a| + k] == b[k];
    }
  }

  lemma AtHead(d: Bytes, o: nat, e: Bytes)
    requires At(d, o, e) && |e| > 0
    ensures o < |d| && d[o] == e[0] && At(d, o + 1, e[1..])
  {
    assert d[o + 0] == e[0];
    forall k | 0 <= k < |e[1..]| ensures d[o + 1 + k] == e[1..][k] {
      assert e[1..][k] == e[k + 1];
    }
  }

  /** A slice that stops at the end of the data, as the source's slices do. */
  function Slice(d: Bytes, from: nat, to: nat): (s: Bytes)
    ensures from <= to <= |d| ==> s == d[from..to]
  {
    var stop := if to <= |d| then to else |d|;
    if from <= stop then d[from..stop] else []
  }

  function BE(s: Bytes): nat {
    if s == [] then 0 else 256 * BE(s[..|s| - 1]) + s[|s| - 1]
  }

  function ToBE(n: nat, width: nat): (s: Bytes)
    ensures |s| == width
  {
    if width == 0 then [] else ToBE(n / 256, width - 1) + [n % 256]
  }

  function Pow256(width: nat): (n: nat)
    ensures n > 0
  {
    if width == 0 then 1 else 256 * Pow256(width - 1)
  }

  lemma {:induction false} BEBound(s: Bytes)
    ensures BE(s) < Pow256(|s|)
  {
    if s != [] { BEBound(s[..|s| - 1]); }
  }

  lemma {:induction false} BEOfToBE(n: nat, width: nat)
    requires n < Pow256(width)
    ensures BE(ToBE(n, width)) == n
  {
    if width > 0 {
      BEOfToBE(n / 256, width - 1);
      assert ToBE(n, width)[..width - 1] == ToBE(n / 256, width - 1);
    }
  }

  /** Byte j of a big-endian number counts its powers of 256 from the last byte. */
  lemma {:induction false} ByteOfBE(n: nat, width: nat, j: nat)
    requires j < width
    ensures ToBE(n, width)[j] == n / Pow256(width - 1 - j) % 256
    decreases width
  {
    if j < width - 1 {
      ByteOfBE(n / 256, width - 1, j);
      DivTwice(n, Pow256(width - 2 - j));
    } else {
      assert n / Pow256(0) == n;
    }
  }

  lemma DivTwice(n: nat, p: nat)
    requires p > 0
    ensures n / 256 / p == n / (256 * p)
  {
    var q := n / (256 * p);
    var r := n % (256 * p);
    assert n == 256 * (p * q) + r;
    assert n / 256 == q * p + r / 256;
    UniqueQuotient(n / 256, p, q, r / 256);
  }

  lemma {:induction false} ToBEOfBE(s: Bytes)
    ensures ToBE(BE(s), |s|) == s
  {
    if s != [] {
      ToBEOfBE(s[..|s| - 1]);
      assert s == s[..|s| - 1] + [s[|s| - 1]];
    }
  }

  /** Reading a fixed-width big-endian number fails when the data is too short. */
  function ReadBE(d: Bytes, o: nat, width: nat): Option<nat> {
    if o + width <= |d| then Some(BE(d[o..o + width])) else None
  }

  lemma ReadWritten(d: Bytes, o: nat, n: nat, width: nat)
    requires n < Pow256(width) && At(d, o, ToBE(n, width))
    ensures ReadBE(d, o, width) == Some(n)
  {
    AtSlice(d, o, ToBE(n, width));
    BEOfToBE(n, width);
  }
}
