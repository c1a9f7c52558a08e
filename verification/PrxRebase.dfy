/**
 What a linked image holds when the patch sites do not overlap: every byte has one source,
 so the order of the table does not matter, and moving the base by whole 64 KiB steps
 changes exactly the words and high halves.
 */
module PrxRebase {
  import opened Bytes
  import opened PrxLink

  function SiteOf(loads: seq<Segment>, e: Entry): nat {
    if e.sym % 256 < |loads| then loads[e.sym % 256].vaddr + e.offset else 0
  }

  predicate Applies(loads: seq<Segment>, e: Entry) {
    && e.sym % 256 < |loads| && e.sym / 256 % 256 < |loads|
    && (e.rtype == ADDR32 || e.rtype == ADDR16_LO || e.rtype == ADDR16_HA)
  }

  function ValueOf(loads: seq<Segment>, base: nat, e: Entry): nat
    requires Applies(loads, e)
  {
    Value(loads, base, e.sym / 256 % 256, e.addend)
  }

  /** The entry writes the byte at k. */
  predicate Touches(loads: seq<Segment>, e: Entry, k: nat) {
    Applies(loads, e) && SiteOf(loads, e) <= k < SiteOf(loads, e) + WidthOf(e.rtype)
  }

  ghost predicate InImage(loads: seq<Segment>, size: nat, es: seq<Entry>) {
    forall i :: 0 <= i < |es| && Applies(loads, es[i]) ==> SiteOf(loads, es[i]) + WidthOf(es[i].rtype) <= size
  }

  /** No byte is written twice. */
  ghost predicate Separate(loads: seq<Segment>, es: seq<Entry>) {
    forall i, j, k: nat {:trigger Touches(loads, es[i], k), Touches(loads, es[j], k)} ::
      0 <= i < j < |es| ==> !(Touches(loads, es[i], k) && Touches(loads, es[j], k))
  }

  function BytesOf(loads: seq<Segment>, base: nat, e: Entry): (s: Bytes)
    requires Applies(loads, e)
    ensures |s| == WidthOf(e.rtype)
  {
    Packed(e.rtype, ValueOf(loads, base, e))
  }

  /** The bytes of every entry, and the old bytes everywhere else. */
  ghost predicate Holds(loads: seq<Segment>, base: nat, es: seq<Entry>, img: Bytes, out: Bytes) {
    && |out| == |img|
    && (forall i, k: nat {:trigger Touches(loads, es[i], k)} :: 0 <= i < |es| && Touches(loads, es[i], k) && k < |out| ==>
          out[k] == BytesOf(loads, base, es[i])[k - SiteOf(loads, es[i])])
    && (forall k: nat {:trigger out[k]} :: k < |out| && (forall i :: 0 <= i < |es| ==> !Touches(loads, es[i], k)) ==> out[k] == img[k])
  }

  lemma OnePatch(loads: seq<Segment>, base: nat, img: Bytes, e: Entry)
    requires Applies(loads, e) ==> SiteOf(loads, e) + WidthOf(e.rtype) <= |img|
    ensures var r := PatchEntry(loads, base, img, e);
      && r.Linked? && |r.image| == |img|
      && forall k: nat {:trigger r.image[k]} {:trigger img[k]} :: k < |img| ==>
           r.image[k] == if Touches(loads, e, k) then BytesOf(loads, base, e)[k - SiteOf(loads, e)] else img[k]
  {
    hide Packed, Value;
    if Applies(loads, e) {
      var s := BytesOf(loads, base, e);
      assert PatchEntry(loads, base, img, e) == Linked(Put(img, SiteOf(loads, e), s)) by { PatchApplies(loads, base, img, e); }
    }
  }

  lemma PatchApplies(loads: seq<Segment>, base: nat, img: Bytes, e: Entry)
    requires Applies(loads, e) && SiteOf(loads, e) + WidthOf(e.rtype) <= |img|
    ensures PatchEntry(loads, base, img, e) == Linked(Put(img, SiteOf(loads, e), BytesOf(loads, base, e)))
  {
    hide Put, ToBE, Value;
  }

  /** Linking with separate sites puts every entry's bytes at its site and keeps the rest. */
  lemma {:induction false} LinkedHolds(loads: seq<Segment>, base: nat, img: Bytes, es: seq<Entry>)
    requires InImage(loads, |img|, es) && Separate(loads, es)
    ensures var r := PatchEntries(loads, base, img, es); r.Linked? && Holds(loads, base, es, img, r.image)
    decreases |es|
  {
    hide PatchEntry, Touches, BytesOf, SiteOf, Applies;
    if es != [] {
      OnePatch(loads, base, img, es[0]);
      var next := PatchEntry(loads, base, img, es[0]).image;
      TailIsSeparate(loads, |img|, es);
      LinkedHolds(loads, base, next, es[1..]);
      HoldsMore(loads, base, es, img, next, PatchEntries(loads, base, next, es[1..]).image);
    }
  }

  lemma TailIsSeparate(loads: seq<Segment>, size: nat, es: seq<Entry>)
    requires es != [] && InImage(loads, size, es) && Separate(loads, es)
    ensures InImage(loads, size, es[1..]) && Separate(loads, es[1..])
    ensures Applies(loads, es[0]) ==> SiteOf(loads, es[0]) + WidthOf(es[0].rtype) <= size
    ensures forall i, k: nat {:trigger Touches(loads, es[1..][i], k)} ::
      0 <= i < |es| - 1 && Touches(loads, es[0], k) ==> !Touches(loads, es[1..][i], k)
  {
    hide Touches, SiteOf, Applies;
    forall i, k: nat | 0 <= i < |es| - 1 && Touches(loads, es[0], k) ensures !Touches(loads, es[1..][i], k) {
      assert es[1..][i] == es[i + 1];
    }
    forall i, j, k: nat | 0 <= i < j < |es| - 1 ensures !(Touches(loads, es[1..][i], k) && Touches(loads, es[1..][j], k)) {
      assert es[1..][i] == es[i + 1] && es[1..][j] == es[j + 1];
    }
  }

  lemma HoldsMore(loads: seq<Segment>, base: nat, es: seq<Entry>, img: Bytes, next: Bytes, out: Bytes)
    requires es != [] && |next| == |img| && Holds(loads, base, es[1..], next, out) && Separate(loads, es)
    requires forall k: nat {:trigger next[k]} :: k < |img| ==>
      next[k] == if Touches(loads, es[0], k) then BytesOf(loads, base, es[0])[k - SiteOf(loads, es[0])] else img[k]
    ensures Holds(loads, base, es, img, out)
  {
    hide BytesOf, SiteOf, Touches, Applies;
    TouchedInside(loads);
    forall i, k: nat | 0 <= i < |es| && Touches(loads, es[i], k) && k < |out|
      ensures out[k] == BytesOf(loads, base, es[i])[k - SiteOf(loads, es[i])]
    {
      if i == 0 {
        forall j | 0 <= j < |es[1..]| ensures !Touches(loads, es[1..][j], k) {
          assert es[1..][j] == es[j + 1];
        }
        assert out[k] == next[k];
      } else {
        assert es[1..][i - 1] == es[i];
        assert Touches(loads, es[1..][i - 1], k);
      }
    }
    forall k: nat | k < |out| && forall i :: 0 <= i < |es| ==> !Touches(loads, es[i], k) ensures out[k] == img[k] {
      forall j | 0 <= j < |es[1..]| ensures !Touches(loads, es[1..][j], k) {
        assert es[1..][j] == es[j + 1];
      }
      assert out[k] == next[k];
    }
  }

  lemma TouchedInside(loads: seq<Segment>)
    ensures forall e, k: nat {:trigger Touches(loads, e, k)} :: Touches(loads, e, k) ==>
      Applies(loads, e) && 0 <= k - SiteOf(loads, e) < WidthOf(e.rtype)
  {
  }

  // ----- order ------------------------------------------------------------------------

  lemma {:induction false} CountedTwice(s: seq<Entry>, i: nat, j: nat)
    requires i < j < |s| && s[i] == s[j]
    ensures multiset(s)[s[i]] >= 2
  {
    assert s == s[..j] + s[j..];
    assert s[i] == s[..j][i] && s[i] == s[j..][0];
    assert multiset(s) == multiset(s[..j]) + multiset(s[j..]);
    assert s[i] in multiset(s[..j]) && s[i] in multiset(s[j..]);
  }

  lemma {:induction false} TwoPlaces(s: seq<Entry>, e: Entry)
    requires multiset(s)[e] >= 2
    ensures exists i, j :: 0 <= i < j < |s| && s[i] == e && s[j] == e
    decreases |s|
  {
    var last := |s| - 1;
    assert s == s[..last] + [s[last]];
    if s[last] == e {
      assert multiset(s[..last])[e] >= 1;
      assert e in s[..last];
      var i :| 0 <= i < last && s[..last][i] == e;
      assert s[i] == e;
    } else {
      TwoPlaces(s[..last], e);
      var i, j :| 0 <= i < j < last && s[..last][i] == e && s[..last][j] == e;
      assert s[i] == e && s[j] == e;
    }
  }

  lemma PermutedFits(loads: seq<Segment>, size: nat, es: seq<Entry>, fs: seq<Entry>)
    requires multiset(es) == multiset(fs) && InImage(loads, size, es) && Separate(loads, es)
    ensures InImage(loads, size, fs) && Separate(loads, fs)
    ensures forall e :: e in es <==> e in fs
  {
    hide Touches, Applies, SiteOf;
    forall e ensures e in es <==> e in fs {
      assert e in multiset(es) <==> e in multiset(fs);
    }
    forall i | 0 <= i < |fs| && Applies(loads, fs[i]) ensures SiteOf(loads, fs[i]) + WidthOf(fs[i].rtype) <= size {
      assert fs[i] in es;
      var j :| 0 <= j < |es| && es[j] == fs[i];
    }
    forall i, j, k: nat | 0 <= i < j < |fs| && Touches(loads, fs[i], k) ensures !Touches(loads, fs[j], k) {
      if Touches(loads, fs[j], k) { TwoTouch(loads, es, fs, i, j, k); }
    }
  }

  /** A byte two entries write is written by two entries of any reordering. */
  lemma TwoTouch(loads: seq<Segment>, es: seq<Entry>, fs: seq<Entry>, i: nat, j: nat, k: nat)
    requires multiset(es) == multiset(fs) && i < j < |fs| && Touches(loads, fs[i], k) && Touches(loads, fs[j], k)
    ensures exists x, y :: 0 <= x < y < |es| && Touches(loads, es[x], k) && Touches(loads, es[y], k)
  {
    hide Touches;
    if fs[i] == fs[j] {
      CountedTwice(fs, i, j);
      TwoPlaces(es, fs[i]);
    } else {
      assert fs[i] in multiset(fs) && fs[j] in multiset(fs);
      assert fs[i] in es && fs[j] in es;
      var x :| 0 <= x < |es| && es[x] == fs[i];
      var y :| 0 <= y < |es| && es[y] == fs[j];
      var lo, hi := if x < y then x else y, if x < y then y else x;
      assert lo < hi && Touches(loads, es[lo], k) && Touches(loads, es[hi], k);
    }
  }

  lemma SameBytes(loads: seq<Segment>, base: nat, es: seq<Entry>, fs: seq<Entry>, img: Bytes, a: Bytes, b: Bytes, k: nat)
    requires forall e :: e in es <==> e in fs
    requires Holds(loads, base, es, img, a) && Holds(loads, base, fs, img, b) && k < |img|
    ensures a[k] == b[k]
  {
    hide Touches, BytesOf, SiteOf, Applies;
    TouchedInside(loads);
    if i :| 0 <= i < |es| && Touches(loads, es[i], k) {
      assert es[i] in fs;
      var j :| 0 <= j < |fs| && fs[j] == es[i];
      assert Touches(loads, fs[j], k);
    } else {
      forall j | 0 <= j < |fs| ensures !Touches(loads, fs[j], k) {
        assert fs[j] in es;
        var i :| 0 <= i < |es| && es[i] == fs[j];
        assert !Touches(loads, es[i], k);
      }
    }
  }

  /** With separate sites every order of the table links to the same image. */
  lemma OrderDoesNotMatter(loads: seq<Segment>, base: nat, img: Bytes, es: seq<Entry>, fs: seq<Entry>)
    requires InImage(loads, |img|, es) && Separate(loads, es) && multiset(es) == multiset(fs)
    ensures PatchEntries(loads, base, img, es) == PatchEntries(loads, base, img, fs)
  {
    hide PatchEntries, Separate, InImage, Holds;
    PermutedFits(loads, |img|, es, fs);
    LinkedHolds(loads, base, img, es);
    LinkedHolds(loads, base, img, fs);
    var a, b := PatchEntries(loads, base, img, es).image, PatchEntries(loads, base, img, fs).image;
    HoldsSize(loads, base, es, img, a);
    HoldsSize(loads, base, fs, img, b);
    forall k: nat | k < |img| ensures a[k] == b[k] {
      SameBytes(loads, base, es, fs, img, a, b, k);
    }
    assert a == b;
  }

  lemma HoldsSize(loads: seq<Segment>, base: nat, es: seq<Entry>, img: Bytes, out: Bytes)
    requires Holds(loads, base, es, img, out)
    ensures |out| == |img|
  {
  }

  // ----- rebasing -----------------------------------------------------------------------

  /** What an entry's site reads as in a linked image. */
  lemma SiteReads(loads: seq<Segment>, base: nat, es: seq<Entry>, img: Bytes, out: Bytes, i: nat)
    requires Holds(loads, base, es, img, out) && i < |es| && Applies(loads, es[i]) && InImage(loads, |img|, es)
    ensures var site := SiteOf(loads, es[i]);
      && site + WidthOf(es[i].rtype) <= |out|
      && out[site..site + WidthOf(es[i].rtype)] == BytesOf(loads, base, es[i])
  {
    hide BytesOf, Separate;
    var site, s := SiteOf(loads, es[i]), BytesOf(loads, base, es[i]);
    forall k | 0 <= k < |s| ensures out[site + k] == s[k] {
      assert Touches(loads, es[i], site + k);
    }
  }

  function ReadSite(loads: seq<Segment>, e: Entry, out: Bytes): nat
    requires SiteOf(loads, e) + WidthOf(e.rtype) <= |out|
  {
    BE(out[SiteOf(loads, e)..SiteOf(loads, e) + WidthOf(e.rtype)])
  }

  /** The number an entry leaves at its site. */
  function Field(rtype: nat, value: nat): nat {
    if rtype == ADDR32 then value else if rtype == ADDR16_LO then value % TWO16 else Ha16(value)
  }

  lemma FieldReads(loads: seq<Segment>, base: nat, e: Entry)
    requires Applies(loads, e)
    ensures BE(BytesOf(loads, base, e)) == Field(e.rtype, ValueOf(loads, base, e))
  {
    var v := ValueOf(loads, base, e);
    assert Pow256(4) == TWO32 && Pow256(2) == TWO16;
    BEOfToBE(v, 4);
    BEOfToBE(v % TWO16, 2);
    BEOfToBE(Ha16(v), 2);
  }

  lemma Halves(hi: nat, lo: nat)
    requires hi < TWO16 && lo < TWO16
    ensures (hi * TWO16 + lo) / TWO16 == hi && (hi * TWO16 + lo) % TWO16 == lo
    ensures (hi * TWO16 + lo) / 0x8000 % 2 == lo / 0x8000
  {
    var v := hi * TWO16 + lo;
    assert v / TWO16 == hi && v % TWO16 == lo;
    assert v / 0x8000 == 2 * hi + lo / 0x8000;
  }

  lemma Moved(v: nat, steps: nat)
    requires v < TWO32
    ensures var w := (v + steps * TWO16) % TWO32;
      && w % TWO16 == v % TWO16
      && Ha16(w) == (Ha16(v) + steps) % TWO16
  {
    var hi, lo := v / TWO16, v % TWO16;
    var h := (hi + steps) % TWO16;
    WrapHigh(hi + steps, lo);
    Halves(hi, lo);
    Halves(h, lo);
    ModAdds(hi + steps, lo / 0x8000, hi + lo / 0x8000, steps);
  }

  lemma WrapHigh(high: nat, lo: nat)
    requires lo < TWO16
    ensures (high * TWO16 + lo) % TWO32 == high % TWO16 * TWO16 + lo
  {
    var q := high / TWO16;
    assert high == q * TWO16 + high % TWO16;
    assert high * TWO16 == q * TWO32 + high % TWO16 * TWO16;
  }

  lemma ModAdds(a: nat, b: nat, c: nat, d: nat)
    requires a + b == c + d
    ensures (a % TWO16 + b) % TWO16 == (c % TWO16 + d) % TWO16
  {
    assert (a % TWO16 + b) % TWO16 == (a + b) % TWO16;
    assert (c % TWO16 + d) % TWO16 == (c + d) % TWO16;
  }

  lemma ValueMoves(loads: seq<Segment>, base: nat, steps: nat, e: Entry)
    requires Applies(loads, e)
    ensures ValueOf(loads, base + steps * TWO16, e) == (ValueOf(loads, base, e) + steps * TWO16) % TWO32
  {
    var x := base + loads[e.sym / 256 % 256].vaddr + e.addend;
    AddMod(x, steps * TWO16);
  }

  lemma AddMod(x: int, d: nat)
    ensures (x + d) % TWO32 == (x % TWO32 + d) % TWO32
  {
  }

  /** Moving the base by whole 64 KiB steps adds them to each word modulo 2^32 and to each
      high half modulo 2^16, and changes no low half and no other byte. */
  lemma RebasingMovesAddresses(loads: seq<Segment>, base: nat, steps: nat, img: Bytes, es: seq<Entry>)
    requires InImage(loads, |img|, es) && Separate(loads, es)
    ensures var a := PatchEntries(loads, base, img, es);
            var b := PatchEntries(loads, base + steps * TWO16, img, es);
      && a.Linked? && b.Linked? && |a.image| == |b.image| == |img|
      && (forall i :: 0 <= i < |es| && Applies(loads, es[i]) ==>
            && SiteOf(loads, es[i]) + WidthOf(es[i].rtype) <= |img|
            && var before, after := ReadSite(loads, es[i], a.image), ReadSite(loads, es[i], b.image);
               after == if es[i].rtype == ADDR32 then (before + steps * TWO16) % TWO32
                       else if es[i].rtype == ADDR16_HA then (before + steps) % TWO16
                       else before)
      && forall k: nat :: k < |img| && (forall i :: 0 <= i < |es| ==> !Touches(loads, es[i], k)) ==>
           a.image[k] == b.image[k]
  {
    hide PatchEntries, Separate, BytesOf, ValueOf, SiteOf, Applies, Touches;
    LinkedHolds(loads, base, img, es);
    LinkedHolds(loads, base + steps * TWO16, img, es);
    var a, b := PatchEntries(loads, base, img, es).image, PatchEntries(loads, base + steps * TWO16, img, es).image;
    forall i | 0 <= i < |es| && Applies(loads, es[i])
      ensures SiteOf(loads, es[i]) + WidthOf(es[i].rtype) <= |img|
      ensures ReadSite(loads, es[i], b) == MovedField(es[i].rtype, ReadSite(loads, es[i], a), steps)
    {
      SiteMoves(loads, base, steps, es, img, a, b, i);
    }
  }

  function MovedField(rtype: nat, n: nat, steps: nat): nat {
    if rtype == ADDR32 then (n + steps * TWO16) % TWO32
    else if rtype == ADDR16_HA then (n + steps) % TWO16
    else n
  }

  lemma SiteMoves(loads: seq<Segment>, base: nat, steps: nat, es: seq<Entry>, img: Bytes, a: Bytes, b: Bytes, i: nat)
    requires InImage(loads, |img|, es) && i < |es| && Applies(loads, es[i])
    requires Holds(loads, base, es, img, a) && Holds(loads, base + steps * TWO16, es, img, b)
    ensures SiteOf(loads, es[i]) + WidthOf(es[i].rtype) <= |img| == |a| == |b|
    ensures ReadSite(loads, es[i], b) == MovedField(es[i].rtype, ReadSite(loads, es[i], a), steps)
  {
    SiteReads(loads, base, es, img, a, i);
    SiteReads(loads, base + steps * TWO16, es, img, b, i);
    hide Holds, BytesOf, ValueOf, BE, Ha16;
    FieldReads(loads, base, es[i]);
    FieldReads(loads, base + steps * TWO16, es[i]);
    ValueMoves(loads, base, steps, es[i]);
    ValueBound(loads, base, es[i]);
    Moved(ValueOf(loads, base, es[i]), steps);
  }

  lemma ValueBound(loads: seq<Segment>, base: nat, e: Entry)
    requires Applies(loads, e)
    ensures ValueOf(loads, base, e) < TWO32
  {
  }

  function SignExtend16(n: nat): int {
    if n < 0x8000 then n else n as int - 0x1_0000
  }

  lemma HalvesMakeWhole(v: nat)
    requires v < TWO32
    ensures (Ha16(v) * TWO16 + SignExtend16(v % TWO16)) % TWO32 == v
  {
    var hi, lo := v / TWO16, v % TWO16;
    Halves(hi, lo);
    assert Ha16(v) == (hi + lo / 0x8000) % TWO16;
    if lo >= 0x8000 {
      assert Ha16(v) == if hi == TWO16 - 1 then 0 else hi + 1;
    }
  }

  /** A lis and an addi patched for the same address compute it: the high half shifted up
      plus the sign-extended low half is the linked value. */
  lemma PairReconstructs(loads: seq<Segment>, base: nat, img: Bytes, es: seq<Entry>, i: nat, j: nat)
    requires InImage(loads, |img|, es) && Separate(loads, es) && i < |es| && j < |es|
    requires Applies(loads, es[i]) && es[i].rtype == ADDR16_HA
    requires es[j].rtype == ADDR16_LO && es[j].sym == es[i].sym && es[j].addend == es[i].addend
    ensures var r := PatchEntries(loads, base, img, es);
      && r.Linked? && SiteOf(loads, es[i]) + 2 <= |r.image| && SiteOf(loads, es[j]) + 2 <= |r.image|
      && (ReadSite(loads, es[i], r.image) * TWO16 + SignExtend16(ReadSite(loads, es[j], r.image))) % TWO32
         == ValueOf(loads, base, es[i])
  {
    hide PatchEntries, BytesOf, Value, BE, Ha16, Touches, Separate;
    LinkedHolds(loads, base, img, es);
    var out := PatchEntries(loads, base, img, es).image;
    SiteReads(loads, base, es, img, out, i);
    SiteReads(loads, base, es, img, out, j);
    FieldReads(loads, base, es[i]);
    FieldReads(loads, base, es[j]);
    ValueBound(loads, base, es[i]);
    HalvesMakeWhole(ValueOf(loads, base, es[i]));
  }
}
