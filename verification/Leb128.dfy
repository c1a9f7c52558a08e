/** Variable-length numbers (DWARF version 2, section 7.6) and zero-terminated strings. */
module Leb128 {
  import opened Common
  import opened Bytes

  /** The number at offset o and the offset after it; none when the data ends first. */
  function DecodeUleb(d: Bytes, o: nat): (r: Option<(nat, nat)>)
    ensures r.Some? ==> o < r.value.1 <= |d|
    decreases |d| - o
  {
    if o >= |d| then None
    else if d[o] < 128 then Some((d[o], o + 1))
    else match DecodeUleb(d, o + 1)
         case None => None
         case Some(rest) => Some((d[o] - 128 + 128 * rest.0, rest.1))
  }

  function DecodeSleb(d: Bytes, o: nat): (r: Option<(int, nat)>)
    ensures r.Some? ==> o < r.value.1 <= |d|
    decreases |d| - o
  {
    if o >= |d| then None
    else if d[o] < 64 then Some((d[o], o + 1))
    else if d[o] < 128 then Some((d[o] as int - 128, o + 1))
    else match DecodeSleb(d, o + 1)
         case None => None
         case Some(rest) => Some((d[o] - 128 + 128 * rest.0, rest.1))
  }

  function EncodeUleb(n: nat): (s: Bytes)
    ensures |s| > 0
  {
    if n < 128 then [n] else [n % 128 + 128] + EncodeUleb(n / 128)
  }

  function EncodeSleb(n: int): (s: Bytes)
    ensures |s| > 0
    decreases if n < 0 then -n else n
  {
    if -64 <= n < 64 then [n % 128] else [n % 128 + 128] + EncodeSleb(n / 128)
  }

  lemma {:induction false} UlebRoundTrip(d: Bytes, o: nat, n: nat)
    requires At(d, o, EncodeUleb(n))
    ensures DecodeUleb(d, o) == Some((n, o + |EncodeUleb(n)|))
    decreases n
  {
    AtHead(d, o, EncodeUleb(n));
    if n >= 128 {
      assert EncodeUleb(n)[1..] == EncodeUleb(n / 128);
      UlebRoundTrip(d, o + 1, n / 128);
    }
  }

  lemma {:induction false} SlebRoundTrip(d: Bytes, o: nat, n: int)
    requires At(d, o, EncodeSleb(n))
    ensures DecodeSleb(d, o) == Some((n, o + |EncodeSleb(n)|))
    decreases if n < 0 then -n else n
  {
    AtHead(d, o, EncodeSleb(n));
    if !(-64 <= n < 64) {
      assert EncodeSleb(n)[1..] == EncodeSleb(n / 128);
      SlebRoundTrip(d, o + 1, n / 128);
    }
  }

  lemma Distribute(weight: int, low: int, high: int)
    ensures weight * (low + 128 * high) == weight * low + (128 * weight) * high
  {
  }

  /** What is left to read, added in at a weight. */
  ghost function UlebRest(d: Bytes, o: nat, value: nat, weight: nat): Option<(nat, nat)> {
    match DecodeUleb(d, o)
    case None => None
    case Some(rest) => Some((value + weight * rest.0, rest.1))
  }

  lemma UlebRestStep(d: Bytes, o: nat, value: nat, weight: nat)
    requires o < |d|
    ensures d[o] % 128 * weight >= 0
    ensures UlebRest(d, o, value, weight) ==
            if d[o] < 128 then Some((value + d[o] % 128 * weight, o + 1))
            else UlebRest(d, o + 1, value + d[o] % 128 * weight, weight * 128)
  {
    if d[o] >= 128 {
      match DecodeUleb(d, o + 1)
      case None =>
      case Some(rest) => Distribute(weight, d[o] - 128, rest.0);
    }
  }

  /** The reader's loop: each byte is added at a weight seven bits above the last. */
  method Uleb(d: Bytes, start: nat) returns (r: Option<(nat, nat)>)
    ensures r == DecodeUleb(d, start)
  {
    var value: nat, weight: nat, o: nat := 0, 1, start;
    while o < |d|
      invariant UlebRest(d, o, value, weight) == DecodeUleb(d, start)
      decreases |d| - o
    {
      UlebRestStep(d, o, value, weight);
      var b := d[o];
      value := value + b % 128 * weight;
      o := o + 1;
      if b < 128 { return Some((value, o)); }
      weight := weight * 128;
    }
    return None;
  }

  ghost function SlebRest(d: Bytes, o: nat, value: int, weight: int): Option<(int, nat)> {
    match DecodeSleb(d, o)
    case None => None
    case Some(rest) => Some((value + weight * rest.0, rest.1))
  }

  lemma SignedByte(weight: int, b: int)
    ensures weight * (b - 128) == b * weight - weight * 128
    ensures weight * b == b * weight
  {
  }

  lemma SlebRestLast(d: Bytes, o: nat, value: int, weight: int)
    requires o < |d| && d[o] < 128
    ensures SlebRest(d, o, value, weight) ==
            Some((value + d[o] as int % 128 * weight - (if d[o] >= 64 then weight * 128 else 0), o + 1))
  {
    var b: int := d[o];
    assert b % 128 == b;
    SignedByte(weight, b);
  }

  lemma SlebRestStep(d: Bytes, o: nat, value: int, weight: int)
    requires o < |d| && d[o] >= 128
    ensures SlebRest(d, o, value, weight) == SlebRest(d, o + 1, value + d[o] as int % 128 * weight, weight * 128)
  {
    var b: int := d[o];
    assert b % 128 == b - 128;
    match DecodeSleb(d, o + 1)
    case None =>
    case Some(rest) =>
      SignedByte(weight, b - 128);
      Distribute(weight, b - 128, rest.0);
  }

  /** The signed reader: bit 6 of the last byte subtracts the next weight. */
  method Sleb(d: Bytes, start: nat) returns (r: Option<(int, nat)>)
    ensures r == DecodeSleb(d, start)
  {
    var value: int, weight: int, o: nat := 0, 1, start;
    while o < |d|
      invariant SlebRest(d, o, value, weight) == DecodeSleb(d, start)
      decreases |d| - o
    {
      if d[o] < 128 { SlebRestLast(d, o, value, weight); } else { SlebRestStep(d, o, value, weight); }
      var b := d[o];
      value := value + b as int % 128 * weight;
      o := o + 1;
      weight := weight * 128;
      if b < 128 {
        if b >= 64 { value := value - weight; }
        return Some((value, o));
      }
    }
    return None;
  }

  predicate NoZero(s: Bytes) {
    forall k :: 0 <= k < |s| ==> s[k] != 0
  }

  /** The offset of the first zero byte from o on. */
  function FindZero(d: Bytes, o: nat): (z: Option<nat>)
    ensures z.Some? ==> o <= z.value < |d| && d[z.value] == 0
    decreases |d| - o
  {
    if o >= |d| then None else if d[o] == 0 then Some(o) else FindZero(d, o + 1)
  }

  lemma {:induction false} FindsTerminator(d: Bytes, o: nat, s: Bytes)
    requires NoZero(s) && At(d, o, s + [0])
    ensures FindZero(d, o) == Some(o + |s|) && d[o..o + |s|] == s
    decreases |s|
  {
    AtSplit(d, o, s, [0]);
    AtSlice(d, o, s);
    AtHead(d, o, s + [0]);
    if s != [] {
      assert (s + [0])[1..] == s[1..] + [0];
      FindsTerminator(d, o + 1, s[1..]);
    }
  }
}
