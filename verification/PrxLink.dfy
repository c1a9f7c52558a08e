/**
 Two linkers for a relocatable module at a fixed base. One decodes each relocation entry
 into fields, masks the value and adjusts its high half with ha16; the other picks bytes
 out of the entry and adds 0x8000 to the unmasked value.

 Failed stands for the exception or exit that ends a linker.
 */
module PrxLink {
  import opened Common
  import opened Bytes

  datatype Segment = Segment(offset: nat, vaddr: nat, filesz: nat, memsz: nat)

  /** The load segments, and where the relocation table is. */
  datatype Module = Module(data: Bytes, loads: seq<Segment>, relaOffset: nat, relaSize: nat)

  datatype Linked = Linked(image: Bytes) | Failed

  const ADDR32: nat := 1
  const ADDR16_LO: nat := 4
  const ADDR16_HI: nat := 5
  const ADDR16_HA: nat := 6
  const REL64: nat := 44

  const TWO16: nat := 0x1_0000
  const TWO32: nat := 0x1_0000_0000
  const TWO64: nat := 0x1_0000_0000_0000_0000

  function Max(a: nat, b: nat): nat {
    if a < b then b else a
  }

  function Top(loads: seq<Segment>): nat {
    if loads == [] then 0
    else Max(Top(loads[..|loads| - 1]), loads[|loads| - 1].vaddr + loads[|loads| - 1].memsz)
  }

  /** Assignment to a slice of a growable buffer: the slice stops at the end, the new bytes
      take its place whatever their number. */
  function Splice(img: Bytes, from: nat, to: nat, s: Bytes): Bytes
    requires from <= to
  {
    (if from <= |img| then img[..from] else img) + s + (if to <= |img| then img[to..] else [])
  }

  /** Packing into a fixed place; it must fit. */
  function Put(img: Bytes, at: nat, s: Bytes): (r: Bytes)
    requires at + |s| <= |img|
    ensures |r| == |img|
  {
    img[..at] + s + img[at + |s|..]
  }

  // ----- the first linker: decoded entries ------------------------------------------------

  datatype Entry = Entry(offset: nat, sym: nat, rtype: nat, addend: int)

  /** Two's complement. */
  function Signed64(n: nat): (v: int)
    ensures n < TWO64 ==> -0x8000_0000_0000_0000 <= v < 0x8000_0000_0000_0000 && (v - n) % TWO64 == 0
  {
    if n < TWO64 / 2 then n else n as int - TWO64
  }

  function ParseEntry(d: Bytes, o: nat): Entry
    requires o + 24 <= |d|
  {
    var info := BE(d[o + 8..o + 16]);
    Entry(BE(d[o..o + 8]), info / TWO32, info % TWO32, Signed64(BE(d[o + 16..o + 24])))
  }

  function Entries(d: Bytes, off: nat, end: nat): seq<Entry>
    decreases end - off
  {
    if off + 24 > end || off + 24 > |d| then [] else [ParseEntry(d, off)] + Entries(d, off + 24, end)
  }

  /** High half, adjusted for the sign extension of the low half. */
  function Ha16(v: nat): nat {
    (v / TWO16 + v / 0x8000 % 2) % TWO16
  }

  /** Segment contents as the first linker places them. */
  function Flatten(d: Bytes, loads: seq<Segment>, img: Bytes): Bytes
    decreases |loads|
  {
    if loads == [] then img
    else
      var seg := Slice(d, loads[0].offset, loads[0].offset + loads[0].filesz);
      Flatten(d, loads[1..], Splice(img, loads[0].vaddr, loads[0].vaddr + |seg|, seg))
  }

  function Value(loads: seq<Segment>, base: nat, symbol: nat, addend: int): nat
    requires symbol < |loads|
  {
    (base + loads[symbol].vaddr + addend) % TWO32
  }

  function Packed(rtype: nat, value: nat): Bytes {
    if rtype == ADDR32 then ToBE(value, 4)
    else if rtype == ADDR16_LO then ToBE(value % TWO16, 2)
    else if rtype == ADDR16_HA then ToBE(Ha16(value), 2)
    else []
  }

  /** One entry; an index outside the segments or another type changes nothing. */
  function PatchEntry(loads: seq<Segment>, base: nat, img: Bytes, e: Entry): Linked {
    var patched, symbol := e.sym % 256, e.sym / 256 % 256;
    if patched >= |loads| || symbol >= |loads| || e.rtype !in {ADDR32, ADDR16_LO, ADDR16_HA} then Linked(img)
    else
      var site := loads[patched].vaddr + e.offset;
      var bytes := Packed(e.rtype, Value(loads, base, symbol, e.addend));
      if site + |bytes| <= |img| then Linked(Put(img, site, bytes)) else Failed
  }

  function PatchEntries(loads: seq<Segment>, base: nat, img: Bytes, es: seq<Entry>): Linked
    decreases |es|
  {
    if es == [] then Linked(img)
    else match PatchEntry(loads, base, img, es[0])
         case Failed => Failed
         case Linked(next) => PatchEntries(loads, base, next, es[1..])
  }

  function RelocateSpec(m: Module, base: nat): Linked {
    if m.loads == [] then Failed
    else PatchEntries(m.loads, base, Flatten(m.data, m.loads, Zeros(Top(m.loads))),
                      Entries(m.data, m.relaOffset, m.relaOffset + m.relaSize))
  }

  method TopOf(loads: seq<Segment>) returns (top: nat)
    ensures top == Top(loads)
  {
    top := 0;
    for i := 0 to |loads|
      invariant top == Top(loads[..i])
    {
      assert loads[..i + 1][..i] == loads[..i];
      top := Max(top, loads[i].vaddr + loads[i].memsz);
    }
    assert loads[..|loads|] == loads;
  }

  method ParseRelocations(d: Bytes, from: nat, end: nat) returns (es: seq<Entry>)
    ensures es == Entries(d, from, end)
  {
    hide ParseEntry;
    es := [];
    var off := from;
    while off + 24 <= end && off + 24 <= |d|
      invariant es + Entries(d, off, end) == Entries(d, from, end)
      decreases end - off
    {
      var e := ParseEntry(d, off);
      assert es + ([e] + Entries(d, off + 24, end)) == es + [e] + Entries(d, off + 24, end);
      es := es + [e];
      off := off + 24;
    }
    assert es + [] == es;
  }

  method Relocate(m: Module, base: nat) returns (r: Linked)
    ensures r == RelocateSpec(m, base)
  {
    hide PatchEntry, Splice, Entries, Slice;
    if m.loads == [] { return Failed; }
    var top := TopOf(m.loads);
    var img := Zeros(top);
    ghost var flat := Flatten(m.data, m.loads, img);
    for i := 0 to |m.loads|
      invariant Flatten(m.data, m.loads[i..], img) == flat
    {
      assert m.loads[i..][1..] == m.loads[i + 1..];
      var p := m.loads[i];
      var seg := Slice(m.data, p.offset, p.offset + p.filesz);
      img := Splice(img, p.vaddr, p.vaddr + |seg|, seg);
    }
    var es := ParseRelocations(m.data, m.relaOffset, m.relaOffset + m.relaSize);
    for i := 0 to |es|
      invariant PatchEntries(m.loads, base, img, es[i..]) == RelocateSpec(m, base)
    {
      assert es[i..][1..] == es[i + 1..];
      var next := PatchEntry(m.loads, base, img, es[i]);
      if next.Failed? { return Failed; }
      img := next.image;
    }
    return Linked(img);
  }

  // ----- the second linker: bytes of the table ---------------------------------------------

  function Place(d: Bytes, loads: seq<Segment>, img: Bytes): Bytes
    decreases |loads|
  {
    if loads == [] then img
    else
      var p := loads[0];
      Place(d, loads[1..], Splice(img, p.vaddr, p.vaddr + p.filesz, Slice(d, p.offset, p.offset + p.filesz)))
  }

  /** The bytes a type writes of the unmasked value; none for a type it does not handle. */
  function Written(rtype: nat, value: nat): Option<Bytes> {
    if rtype == ADDR32 then Some(ToBE(value % TWO32, 4))
    else if rtype == ADDR16_LO then Some(ToBE(value % TWO16, 2))
    else if rtype == ADDR16_HI then Some(ToBE(value / TWO16 % TWO16, 2))
    else if rtype == ADDR16_HA then Some(ToBE((value + 0x8000) / TWO16 % TWO16, 2))
    else if rtype == REL64 then Some(ToBE(value % TWO64, 8))
    else None
  }

  function PatchAt(d: Bytes, loads: seq<Segment>, base: nat, img: Bytes, o: nat): Linked {
    if o + 24 > |d| then Failed
    else
      var symbol, patched := d[o + 10], d[o + 11];
      if patched >= |loads| || (symbol != 0xFF && symbol >= |loads|) then Failed
      else
        var target := loads[patched].vaddr + BE(d[o..o + 8]);
        var start := if symbol == 0xFF then 0 else base + loads[symbol].vaddr;
        match Written(BE(d[o + 12..o + 16]), start + BE(d[o + 16..o + 24]))
        case None => Failed
        case Some(s) => Linked(Splice(img, target, target + |s|, s))
  }

  function PatchFrom(d: Bytes, loads: seq<Segment>, base: nat, img: Bytes, o: nat, count: nat): Linked
    decreases count
  {
    if count == 0 then Linked(img)
    else match PatchAt(d, loads, base, img, o)
         case Failed => Failed
         case Linked(next) => PatchFrom(d, loads, base, next, o + 24, count - 1)
  }

  function BuildImageSpec(m: Module, base: nat): Linked {
    if m.loads == [] then Failed
    else PatchFrom(m.data, m.loads, base, Place(m.data, m.loads, Zeros(Top(m.loads))), m.relaOffset, m.relaSize / 24)
  }

  method BuildImage(m: Module, base: nat) returns (r: Linked)
    ensures r == BuildImageSpec(m, base)
  {
    hide PatchAt, Splice, Slice;
    if m.loads == [] { return Failed; }
    var top := TopOf(m.loads);
    var img := Zeros(top);
    ghost var placed := Place(m.data, m.loads, img);
    for i := 0 to |m.loads|
      invariant Place(m.data, m.loads[i..], img) == placed
    {
      assert m.loads[i..][1..] == m.loads[i + 1..];
      var p := m.loads[i];
      img := Splice(img, p.vaddr, p.vaddr + p.filesz, Slice(m.data, p.offset, p.offset + p.filesz));
    }
    var n := m.relaSize / 24;
    for i := 0 to n
      invariant PatchFrom(m.data, m.loads, base, img, m.relaOffset + i * 24, n - i) == BuildImageSpec(m, base)
    {
      var next := PatchAt(m.data, m.loads, base, img, m.relaOffset + i * 24);
      if next.Failed? { return Failed; }
      img := next.image;
    }
    return Linked(img);
  }

  // ----- they agree ----------------------------------------------------------------------

  /** Segments lie in the file and in the image, and so does the whole relocation table. */
  ghost predicate SegmentsFit(m: Module) {
    && (forall k :: 0 <= k < |m.loads| ==>
          m.loads[k].offset + m.loads[k].filesz <= |m.data| && m.loads[k].filesz <= m.loads[k].memsz)
    && m.relaOffset + m.relaSize <= |m.data|
  }

  function WidthOf(rtype: nat): nat {
    if rtype == ADDR32 then 4 else 2
  }

  /** An entry names segments there are, a type both linkers apply, and a site in the image. */
  ghost predicate EntryFits(m: Module, o: nat) {
    && o + 24 <= |m.data| && m.data[o + 10] < |m.loads| && m.data[o + 11] < |m.loads| && m.data[o + 10] != 0xFF
    && var rtype := BE(m.data[o + 12..o + 16]);
       && rtype in {ADDR32, ADDR16_LO, ADDR16_HA}
       && m.loads[m.data[o + 11]].vaddr + BE(m.data[o..o + 8]) + WidthOf(rtype) <= Top(m.loads)
  }

  ghost predicate ModuleFits(m: Module) {
    && m.loads != [] && SegmentsFit(m)
    && forall i: nat :: i < m.relaSize / 24 ==> EntryFits(m, m.relaOffset + i * 24)
  }

  lemma {:induction false} BESplit(s: Bytes, k: nat)
    requires k <= |s|
    ensures BE(s) == BE(s[..k]) * Pow256(|s| - k) + BE(s[k..])
    decreases |s| - k
  {
    if k == |s| {
      assert s[..k] == s;
    } else {
      var front := s[..|s| - 1];
      BESplit(front, k);
      assert front[..k] == s[..k] && s[k..][..|s| - k - 1] == front[k..];
      MulAssoc(BE(s[..k]), Pow256(|front| - k));
    }
  }

  lemma MulAssoc(a: nat, p: nat)
    ensures 256 * (a * p) == a * (256 * p)
  {
  }

  lemma BELast(s: Bytes)
    requires |s| >= 2
    ensures BE(s) % 256 == s[|s| - 1] && BE(s) / 256 % 256 == s[|s| - 2]
  {
    var front := s[..|s| - 1];
    assert BE(s) == 256 * BE(front) + s[|s| - 1];
    assert BE(front) == 256 * BE(front[..|front| - 1]) + front[|front| - 1];
  }

  /** The fields one linker decodes are the bytes the other picks. */
  lemma EntryBytes(d: Bytes, o: nat)
    requires o + 24 <= |d|
    ensures var e := ParseEntry(d, o);
      && e.sym % 256 == d[o + 11] && e.sym / 256 % 256 == d[o + 10]
      && e.rtype == BE(d[o + 12..o + 16])
      && (e.addend - BE(d[o + 16..o + 24])) % TWO32 == 0
  {
    var info := d[o + 8..o + 16];
    BESplit(info, 4);
    assert info[..4] == d[o + 8..o + 12] && info[4..] == d[o + 12..o + 16];
    assert Pow256(4) == TWO32;
    BEBound(info[4..]);
    BELast(d[o + 8..o + 12]);
    DivMod(BE(info[..4]), BE(info[4..]));
  }

  lemma DivMod(hi: nat, lo: nat)
    requires lo < TWO32
    ensures (hi * TWO32 + lo) / TWO32 == hi && (hi * TWO32 + lo) % TWO32 == lo
  {
  }

  lemma SameMod(a: int, b: int)
    requires (a - b) % TWO32 == 0
    ensures a % TWO32 == b % TWO32
  {
  }

  lemma CarryOut(w: nat)
    ensures (w + 0x8000) / TWO16 == w / TWO16 + w / 0x8000 % 2
  {
    var a, r := w / 0x8000, w % 0x8000;
    assert w == a * 0x8000 + r;
    assert w / TWO16 == a / 2;
    assert (w + 0x8000) / TWO16 == (a + 1) / 2;
  }

  lemma ShiftOut(q: nat, x: nat)
    ensures (q * TWO32 + x) / TWO16 == q * TWO16 + x / TWO16
    ensures (q * TWO32 + x) % TWO16 == x % TWO16
  {
    assert q * TWO32 + x == (q * TWO16) * TWO16 + x;
  }

  /** Adding 0x8000 before the shift is the same as adding bit 15 after it, whatever the
      bits above 32. */
  lemma HighAdjusted(v: nat)
    ensures (v + 0x8000) / TWO16 % TWO16 == Ha16(v % TWO32)
    ensures v % TWO16 == v % TWO32 % TWO16
  {
    var q, w := v / TWO32, v % TWO32;
    ShiftOut(q, w + 0x8000);
    ShiftOut(q, w);
    CarryOut(w);
    Wraps(q, (w + 0x8000) / TWO16);
  }

  lemma Wraps(q: nat, x: nat)
    ensures (q * TWO16 + x) % TWO16 == x % TWO16
  {
  }

  lemma SplicePuts(img: Bytes, at: nat, s: Bytes)
    requires at + |s| <= |img|
    ensures Splice(img, at, at + |s|, s) == Put(img, at, s)
  {
  }

  /** One entry: both linkers write the same bytes at the same place. */
  lemma PatchesAgree(m: Module, base: nat, img: Bytes, o: nat)
    requires EntryFits(m, o) && |img| == Top(m.loads)
    ensures var r := PatchEntry(m.loads, base, img, ParseEntry(m.data, o));
      r.Linked? && |r.image| == |img| && PatchAt(m.data, m.loads, base, img, o) == r
  {
    hide BE, Top, Signed64, Ha16, ToBE;
    var e := ParseEntry(m.data, o);
    EntryBytes(m.data, o);
    assert e.offset == BE(m.data[o..o + 8]);
    var vaddr, ptr := m.loads[m.data[o + 10]].vaddr, BE(m.data[o + 16..o + 24]);
    SameMod(base + vaddr + e.addend, base + vaddr + ptr);
    BytesAgree(e.rtype, base + vaddr + ptr);
    var s := Packed(e.rtype, (base + vaddr + ptr) % TWO32);
    SplicePuts(img, m.loads[m.data[o + 11]].vaddr + e.offset, s);
  }

  lemma BytesAgree(rtype: nat, v: nat)
    requires rtype in {ADDR32, ADDR16_LO, ADDR16_HA}
    ensures Written(rtype, v) == Some(Packed(rtype, v % TWO32))
    ensures |Packed(rtype, v % TWO32)| == WidthOf(rtype)
  {
    HighAdjusted(v);
  }

  lemma {:induction false} PlacesAgree(d: Bytes, loads: seq<Segment>, img: Bytes)
    requires forall k :: 0 <= k < |loads| ==>
               loads[k].offset + loads[k].filesz <= |d| && loads[k].vaddr + loads[k].filesz <= |img|
    ensures Flatten(d, loads, img) == Place(d, loads, img) && |Place(d, loads, img)| == |img|
    decreases |loads|
  {
    if loads != [] {
      var p := loads[0];
      var seg := Slice(d, p.offset, p.offset + p.filesz);
      SplicePuts(img, p.vaddr, seg);
      PlacesAgree(d, loads[1..], Splice(img, p.vaddr, p.vaddr + p.filesz, seg));
    }
  }

  lemma {:induction false} TopIsAbove(loads: seq<Segment>, k: nat)
    requires k < |loads|
    ensures loads[k].vaddr + loads[k].memsz <= Top(loads)
    decreases |loads|
  {
    if k < |loads| - 1 { TopIsAbove(loads[..|loads| - 1], k); }
  }

  lemma {:induction false} TablesAgree(m: Module, base: nat, img: Bytes, o: nat, count: nat)
    requires |img| == Top(m.loads) && forall i: nat :: i < count ==> EntryFits(m, o + i * 24)
    requires o + count * 24 <= |m.data|
    ensures forall end :: o + count * 24 <= end < o + count * 24 + 24 ==>
      PatchEntries(m.loads, base, img, Entries(m.data, o, end)) == PatchFrom(m.data, m.loads, base, img, o, count)
    decreases count
  {
    hide PatchEntry, PatchAt, ParseEntry, EntryFits, Top;
    if count > 0 {
      assert EntryFits(m, o + 0 * 24);
      PatchesAgree(m, base, img, o);
      forall i: nat | i < count - 1 ensures EntryFits(m, o + 24 + i * 24) {
        assert EntryFits(m, o + (i + 1) * 24);
      }
      TablesAgree(m, base, PatchAt(m.data, m.loads, base, img, o).image, o + 24, count - 1);
      forall end | o + count * 24 <= end < o + count * 24 + 24
        ensures PatchEntries(m.loads, base, img, Entries(m.data, o, end)) == PatchFrom(m.data, m.loads, base, img, o, count)
      {
        var es := Entries(m.data, o, end);
        assert es[0] == ParseEntry(m.data, o) && es[1..] == Entries(m.data, o + 24, end);
      }
    }
  }

  /** The image is as long as the segment that ends last. */
  lemma {:induction false} TopIsReached(loads: seq<Segment>)
    ensures Top(loads) == 0 || exists k :: 0 <= k < |loads| && Top(loads) == loads[k].vaddr + loads[k].memsz
    decreases |loads|
  {
    if loads != [] {
      var front := loads[..|loads| - 1];
      TopIsReached(front);
      if Top(loads) == Top(front) != 0 {
        var k :| 0 <= k < |front| && Top(front) == front[k].vaddr + front[k].memsz;
        assert loads[k] == front[k];
      }
    }
  }

  /** Address a of the image is a file byte of the segment. */
  predicate InSegment(p: Segment, a: nat) {
    p.vaddr <= a < p.vaddr + p.filesz
  }

  ghost predicate SegmentsApart(loads: seq<Segment>) {
    forall j, k, a: nat :: 0 <= j < k < |loads| && InSegment(loads[j], a) ==> !InSegment(loads[k], a)
  }

  ghost predicate AllFit(d: Bytes, loads: seq<Segment>, top: nat) {
    forall k :: 0 <= k < |loads| ==> loads[k].offset + loads[k].filesz <= |d| && loads[k].vaddr + loads[k].filesz <= top
  }

  lemma SegmentIsPlaced(d: Bytes, p: Segment, img: Bytes, a: nat)
    requires p.offset + p.filesz <= |d| && p.vaddr + p.filesz <= |img| && a < |img|
    ensures var next := Splice(img, p.vaddr, p.vaddr + p.filesz, Slice(d, p.offset, p.offset + p.filesz));
      |next| == |img| && next[a] == if InSegment(p, a) then d[p.offset + (a - p.vaddr)] else img[a]
  {
    SplicePuts(img, p.vaddr, Slice(d, p.offset, p.offset + p.filesz));
  }

  lemma {:induction false} OthersUntouched(d: Bytes, loads: seq<Segment>, img: Bytes, a: nat)
    requires AllFit(d, loads, |img|) && a < |img| && forall k :: 0 <= k < |loads| ==> !InSegment(loads[k], a)
    ensures |Place(d, loads, img)| == |img| && Place(d, loads, img)[a] == img[a]
    decreases |loads|
  {
    hide Splice, Slice;
    if loads != [] {
      var p := loads[0];
      SegmentIsPlaced(d, p, img, a);
      OthersUntouched(d, loads[1..], Splice(img, p.vaddr, p.vaddr + p.filesz, Slice(d, p.offset, p.offset + p.filesz)), a);
    }
  }

  /** Segments that do not overlap are placed whole: each of their bytes stands at its
      address, and every other byte stays as it was. */
  lemma SegmentsArePlaced(d: Bytes, loads: seq<Segment>, img: Bytes, k: nat, a: nat)
    requires AllFit(d, loads, |img|) && SegmentsApart(loads) && k < |loads| && InSegment(loads[k], a)
    ensures a < |img| == |Place(d, loads, img)|
    ensures Place(d, loads, img)[a] == d[loads[k].offset + (a - loads[k].vaddr)]
    ensures forall b: nat :: b < |img| && (forall j :: 0 <= j < |loads| ==> !InSegment(loads[j], b)) ==> Place(d, loads, img)[b] == img[b]
  {
    hide Splice, Slice, Place;
    PlacedAt(d, loads, img, k, a);
    forall b: nat | b < |img| && forall j :: 0 <= j < |loads| ==> !InSegment(loads[j], b)
      ensures Place(d, loads, img)[b] == img[b]
    {
      OthersUntouched(d, loads, img, b);
    }
  }

  lemma {:induction false} PlacedAt(d: Bytes, loads: seq<Segment>, img: Bytes, k: nat, a: nat)
    requires AllFit(d, loads, |img|) && SegmentsApart(loads) && k < |loads| && InSegment(loads[k], a)
    ensures a < |img| == |Place(d, loads, img)| && Place(d, loads, img)[a] == d[loads[k].offset + (a - loads[k].vaddr)]
    decreases |loads|
  {
    hide Splice, Slice;
    var p, rest := loads[0], loads[1..];
    var next := Splice(img, p.vaddr, p.vaddr + p.filesz, Slice(d, p.offset, p.offset + p.filesz));
    SegmentIsPlaced(d, p, img, a);
    if k == 0 {
      forall j | 0 <= j < |rest| ensures !InSegment(rest[j], a) {
        assert rest[j] == loads[j + 1] && InSegment(loads[0], a);
      }
      OthersUntouched(d, rest, next, a);
    } else {
      RestApart(loads);
      assert rest[k - 1] == loads[k];
      PlacedAt(d, rest, next, k - 1, a);
    }
  }

  lemma RestApart(loads: seq<Segment>)
    requires SegmentsApart(loads) && loads != []
    ensures SegmentsApart(loads[1..])
  {
    forall j, k, a: nat | 0 <= j < k < |loads[1..]| && InSegment(loads[1..][j], a) ensures !InSegment(loads[1..][k], a) {
      assert loads[1..][j] == loads[j + 1] && loads[1..][k] == loads[k + 1];
    }
  }

  /** For every module in range, the two linkers make the same image, byte for byte. */
  lemma LinkersAgree(m: Module, base: nat)
    requires ModuleFits(m)
    ensures RelocateSpec(m, base) == BuildImageSpec(m, base)
  {
    hide EntryFits, PatchEntry, PatchAt, Top;
    forall k | 0 <= k < |m.loads| ensures m.loads[k].vaddr + m.loads[k].filesz <= Top(m.loads) {
      TopIsAbove(m.loads, k);
    }
    var img := Zeros(Top(m.loads));
    PlacesAgree(m.data, m.loads, img);
    TablesAgree(m, base, Place(m.data, m.loads, img), m.relaOffset, m.relaSize / 24);
  }

  /** The types only the second linker writes: the high half as it is, and eight bytes. */
  lemma OtherTypes(v: nat)
    ensures Written(ADDR16_HI, v).Some? && |Written(ADDR16_HI, v).value| == 2
    ensures BE(Written(ADDR16_HI, v).value) == v / 0x1_0000 % 0x1_0000
    ensures Written(REL64, v).Some? && |Written(REL64, v).value| == 8
    ensures BE(Written(REL64, v).value) == v % 0x1_0000_0000_0000_0000
  {
    hide BE, ToBE;
    EightBytes();
    BEOfToBE(v / TWO16 % TWO16, 2);
    BEOfToBE(v % TWO64, 8);
  }

  lemma EightBytes()
    ensures Pow256(2) == TWO16 && Pow256(8) == TWO64
  {
    assert Pow256(4) == TWO32;
    assert Pow256(6) == TWO16 * TWO32;
  }

  // ----- and only then -------------------------------------------------------------------

  /** The entry leaves both linkers with the same image, whatever the base and the image. */
  ghost predicate TreatedAlike(m: Module, o: nat)
    requires o + 24 <= |m.data|
  {
    forall base: nat, img: Bytes {:trigger PatchAt(m.data, m.loads, base, img, o)} :: |img| == Top(m.loads) ==>
      PatchEntry(m.loads, base, img, ParseEntry(m.data, o)) == PatchAt(m.data, m.loads, base, img, o)
  }

  /** Some image is changed by writing these bytes at this place. */
  lemma SomeImageChanges(top: nat, at: nat, s: Bytes) returns (img: Bytes)
    requires s != []
    ensures |img| == top && Splice(img, at, at + |s|, s) != img
  {
    img := Zeros(top);
    if at + |s| <= top {
      img := img[at := if s[0] == 0 then 1 else 0];
      assert Splice(img, at, at + |s|, s)[at] == s[0];
    }
  }

  lemma ToBEInjective(a: nat, b: nat, width: nat)
    requires a < Pow256(width) && b < Pow256(width) && ToBE(a, width) == ToBE(b, width)
    ensures a == b
  {
    BEOfToBE(a, width);
    BEOfToBE(b, width);
  }

  /** Moving a value by 0x10001 changes what is written of it, whatever the type. */
  lemma MovedIsWrittenDifferently(rtype: nat, v: nat)
    requires rtype in {ADDR32, ADDR16_LO, ADDR16_HA}
    ensures Packed(rtype, v % TWO32) != Packed(rtype, (v + 0x10001) % TWO32)
  {
    hide ToBE, Ha16;
    var a, b := v % TWO32, (v + 0x10001) % TWO32;
    assert Pow256(2) == TWO16 && Pow256(4) == TWO32;
    HighAdjusted(v);
    HighAdjusted(v + 0x10001);
    MovedParts(v);
    if Packed(rtype, a) == Packed(rtype, b) {
      if rtype == ADDR32 { ToBEInjective(a, b, 4); }
      else if rtype == ADDR16_LO { ToBEInjective(a % TWO16, b % TWO16, 2); }
      else { ToBEInjective(Ha16(a), Ha16(b), 2); }
    }
  }

  lemma MovedParts(v: nat)
    ensures v % TWO32 != (v + 0x10001) % TWO32 && v % TWO16 != (v + 0x10001) % TWO16
    ensures (v + 0x8000) / TWO16 % TWO16 != (v + 0x10001 + 0x8000) / TWO16 % TWO16
  {
    var x := (v + 0x8000) / TWO16;
    assert (v + 0x10001 + 0x8000) / TWO16 in {x + 1, x + 2};
    assert (x + 1) % TWO16 != x % TWO16 && (x + 2) % TWO16 != x % TWO16;
  }

  /** A type only one linker writes, or an index only one takes. */
  lemma OnlyOneWrites(m: Module, o: nat, s: Bytes)
    requires o + 24 <= |m.data| && s != [] && m.data[o + 11] < |m.loads|
    requires forall base: nat, img :: PatchEntry(m.loads, base, img, ParseEntry(m.data, o)) == Linked(img)
    requires var at := m.loads[m.data[o + 11]].vaddr + BE(m.data[o..o + 8]);
      forall img :: PatchAt(m.data, m.loads, 0, img, o) == Linked(Splice(img, at, at + |s|, s))
    ensures !TreatedAlike(m, o)
  {
    hide PatchEntry, PatchAt, ParseEntry, Splice, Top, BE;
    var img := SomeImageChanges(Top(m.loads), m.loads[m.data[o + 11]].vaddr + BE(m.data[o..o + 8]), s);
    assert PatchEntry(m.loads, 0, img, ParseEntry(m.data, o)) != PatchAt(m.data, m.loads, 0, img, o);
  }

  lemma BadIndexDiffers(m: Module, o: nat)
    requires o + 24 <= |m.data|
    requires m.data[o + 11] >= |m.loads| || (m.data[o + 10] != 0xFF && m.data[o + 10] >= |m.loads|)
    ensures !TreatedAlike(m, o)
  {
    hide BE, Top;
    EntryBytes(m.data, o);
    var img := Zeros(Top(m.loads));
    assert PatchAt(m.data, m.loads, 0, img, o) == Failed;
  }

  lemma BadTypeDiffers(m: Module, o: nat)
    requires o + 24 <= |m.data| && m.data[o + 11] < |m.loads|
    requires m.data[o + 10] == 0xFF || m.data[o + 10] < |m.loads|
    requires BE(m.data[o + 12..o + 16]) !in {ADDR32, ADDR16_LO, ADDR16_HA}
    ensures !TreatedAlike(m, o)
  {
    hide BE, Top, Splice, ToBE;
    EntryBytes(m.data, o);
    var symbol, ptr := m.data[o + 10], BE(m.data[o + 16..o + 24]);
    var written := Written(BE(m.data[o + 12..o + 16]), (if symbol == 0xFF then 0 else m.loads[symbol].vaddr) + ptr);
    if written == None {
      assert PatchAt(m.data, m.loads, 0, Zeros(Top(m.loads)), o) == Failed;
    } else {
      OnlyOneWrites(m, o, written.value);
    }
  }

  lemma AbsoluteDiffers(m: Module, o: nat)
    requires o + 24 <= |m.data| && m.data[o + 11] < |m.loads| && m.data[o + 10] == 0xFF
    requires BE(m.data[o + 12..o + 16]) in {ADDR32, ADDR16_LO, ADDR16_HA}
    requires m.loads[m.data[o + 11]].vaddr + BE(m.data[o..o + 8]) + WidthOf(BE(m.data[o + 12..o + 16])) <= Top(m.loads)
    ensures !TreatedAlike(m, o)
  {
    hide BE, Top, Splice, ToBE, Signed64, Ha16, Packed, Written;
    EntryBytes(m.data, o);
    var e, ptr := ParseEntry(m.data, o), BE(m.data[o + 16..o + 24]);
    BytesAgree(e.rtype, ptr);
    var s := Packed(e.rtype, ptr % TWO32);
    if |m.loads| <= 0xFF {
      OnlyOneWrites(m, o, s);
    } else if TreatedAlike(m, o) {
      var img, v := Zeros(Top(m.loads)), m.loads[0xFF].vaddr + ptr;
      var at := m.loads[m.data[o + 11]].vaddr + e.offset;
      SplicePuts(img, at, s);
      WrittenAt(m, o, 0, img);
      WrittenAt(m, o, 0x10001, img);
      MovedIsWrittenDifferently(e.rtype, v);
    }
  }

  /** If both linkers take an entry alike that names segment 0xFF of many, the second's
      bytes are the first's. */
  lemma WrittenAt(m: Module, o: nat, base: nat, img: Bytes)
    requires o + 24 <= |m.data| && m.data[o + 11] < |m.loads| && m.data[o + 10] == 0xFF < |m.loads|
    requires BE(m.data[o + 12..o + 16]) in {ADDR32, ADDR16_LO, ADDR16_HA}
    requires |img| == Top(m.loads)
    requires m.loads[m.data[o + 11]].vaddr + BE(m.data[o..o + 8]) + WidthOf(BE(m.data[o + 12..o + 16])) <= |img|
    requires TreatedAlike(m, o)
    ensures var rtype, ptr := BE(m.data[o + 12..o + 16]), BE(m.data[o + 16..o + 24]);
      Packed(rtype, (base + m.loads[0xFF].vaddr + ptr) % TWO32) == Packed(rtype, ptr % TWO32)
  {
    hide BE, Top, Splice, ToBE, Signed64, Ha16, Packed, Written;
    EntryBytes(m.data, o);
    var e, ptr, vaddr := ParseEntry(m.data, o), BE(m.data[o + 16..o + 24]), m.loads[0xFF].vaddr;
    var at := m.loads[m.data[o + 11]].vaddr + e.offset;
    SameMod(base + vaddr + e.addend, base + vaddr + ptr);
    BytesAgree(e.rtype, base + vaddr + ptr);
    BytesAgree(e.rtype, ptr);
    var first, second := Packed(e.rtype, (base + vaddr + ptr) % TWO32), Packed(e.rtype, ptr % TWO32);
    SplicePuts(img, at, second);
    assert PatchAt(m.data, m.loads, base, img, o) == Linked(Put(img, at, second));
    assert PatchEntry(m.loads, base, img, e) == Linked(Put(img, at, first));
    assert Put(img, at, first)[at..at + |first|] == first && Put(img, at, second)[at..at + |second|] == second;
  }

  lemma OutsideDiffers(m: Module, o: nat)
    requires o + 24 <= |m.data| && m.data[o + 11] < |m.loads|
    requires m.data[o + 10] == 0xFF || m.data[o + 10] < |m.loads|
    requires BE(m.data[o + 12..o + 16]) in {ADDR32, ADDR16_LO, ADDR16_HA}
    requires m.loads[m.data[o + 11]].vaddr + BE(m.data[o..o + 8]) + WidthOf(BE(m.data[o + 12..o + 16])) > Top(m.loads)
    ensures !TreatedAlike(m, o)
  {
    hide BE, Top, ToBE, Ha16;
    EntryBytes(m.data, o);
    var img := Zeros(Top(m.loads));
    assert PatchAt(m.data, m.loads, 0, img, o).Linked?;
    assert |PatchAt(m.data, m.loads, 0, img, o).image| > |img|;
  }

  /** The two linkers treat an entry alike, at every base and on every image, if and only
      if it names segments there are, neither as 0xFF for its symbol, a type both apply
      and a site in the image. */
  lemma EntriesAgreeIff(m: Module, o: nat)
    requires o + 24 <= |m.data|
    ensures TreatedAlike(m, o) <==> EntryFits(m, o)
  {
    var symbol, patched, rtype := m.data[o + 10], m.data[o + 11], BE(m.data[o + 12..o + 16]);
    hide TreatedAlike, BE, Top;
    if EntryFits(m, o) {
      AlikeIfFits(m, o);
    } else if patched >= |m.loads| || (symbol != 0xFF && symbol >= |m.loads|) {
      BadIndexDiffers(m, o);
    } else if rtype !in {ADDR32, ADDR16_LO, ADDR16_HA} {
      BadTypeDiffers(m, o);
    } else if m.loads[patched].vaddr + BE(m.data[o..o + 8]) + WidthOf(rtype) > Top(m.loads) {
      OutsideDiffers(m, o);
    } else {
      AbsoluteDiffers(m, o);
    }
  }

  lemma AlikeIfFits(m: Module, o: nat)
    requires EntryFits(m, o)
    ensures TreatedAlike(m, o)
  {
    hide PatchEntry, PatchAt, ParseEntry, Top;
    forall base: nat, img: Bytes | |img| == Top(m.loads)
      ensures PatchEntry(m.loads, base, img, ParseEntry(m.data, o)) == PatchAt(m.data, m.loads, base, img, o)
    {
      PatchesAgree(m, base, img, o);
    }
  }

  /** A segment is placed alike if and only if the file holds all of it or the image ends
      with what the file holds. */
  lemma SegmentsAgreeIff(d: Bytes, p: Segment, img: Bytes)
    ensures var seg := Slice(d, p.offset, p.offset + p.filesz);
      Splice(img, p.vaddr, p.vaddr + |seg|, seg) == Splice(img, p.vaddr, p.vaddr + p.filesz, seg)
      <==> p.offset + p.filesz <= |d| || p.filesz == 0 || |img| <= p.vaddr + |seg|
  {
    var seg := Slice(d, p.offset, p.offset + p.filesz);
    assert |seg| <= p.filesz;
    assert p.offset + p.filesz <= |d| || p.filesz == 0 <==> |seg| == p.filesz;
  }

  // ----- the index 0xFF ----------------------------------------------------------------

  /** A module whose one entry names the symbol segment 0xFF. */
  function AbsoluteModule(): Module {
    Module(Zeros(10) + [0xFF, 0] + [0, 0, 0, 1] + Zeros(7) + [9], [Segment(0, 0, 0, 4)], 0, 24)
  }

  lemma AbsoluteFlat()
    ensures var m := AbsoluteModule();
      Top(m.loads) == 4 && Flatten(m.data, m.loads, Zeros(4)) == Zeros(4) == Place(m.data, m.loads, Zeros(4))
  {
    var m := AbsoluteModule();
    hide Zeros;
    assert m.loads[1..] == [] && m.loads[..0] == [];
    assert Splice(Zeros(4), 0, 0, []) == Zeros(4);
  }

  /** Outside that range they differ: one linker takes 0xFF for no segment and writes the
      addend itself, the other takes it for a bad index and writes nothing. */
  lemma AbsoluteEntriesDiffer(base: nat)
    ensures var m := AbsoluteModule();
      && RelocateSpec(m, base) == Linked(Zeros(4))
      && BuildImageSpec(m, base) == Linked([0, 0, 0, 9])
  {
    var m := AbsoluteModule();
    AbsoluteFlat();
    AbsoluteEntry(m.data);
    EntryBytes(m.data, 0);
    hide ParseEntry, BE, Written, AbsoluteModule, Flatten, Place, Top;
    var e := ParseEntry(m.data, 0);
    assert Entries(m.data, 0, 24) == [e] + Entries(m.data, 24, 24) == [e];
    assert [e][1..] == [];
    assert PatchEntry(m.loads, base, Zeros(4), e) == Linked(Zeros(4));
    assert Splice(Zeros(4), 0, 4, [0, 0, 0, 9]) == [0, 0, 0, 9];
    assert PatchAt(m.data, m.loads, base, Zeros(4), 0) == Linked([0, 0, 0, 9]);
    assert PatchFrom(m.data, m.loads, base, Zeros(4), 0, 1) == Linked([0, 0, 0, 9]);
    assert PatchEntries(m.loads, base, Zeros(4), [e]) == Linked(Zeros(4));
  }

  lemma AbsoluteEntry(d: Bytes)
    requires d == AbsoluteModule().data
    ensures |d| == 24 && d[10] == 0xFF && d[11] == 0
    ensures var m := AbsoluteModule(); m.loads == [Segment(0, 0, 0, 4)] && m.relaOffset == 0 && m.relaSize == 24
    ensures BE(d[0..8]) == 0 && BE(d[12..16]) == 1 && BE(d[16..24]) == 9
    ensures Written(1, 9) == Some([0, 0, 0, 9])
  {
    assert d[0..8] == Zeros(8);
    ZerosAreZero(8);
    ZerosAreZero(3);
    ZerosAreZero(7);
    assert d[12..16] == Zeros(3) + [1] && (Zeros(3) + [1])[..3] == Zeros(3);
    assert d[16..24] == Zeros(7) + [9] && (Zeros(7) + [9])[..7] == Zeros(7);
    assert ToBE(9, 4) == ToBE(0, 3) + [9];
    assert ToBE(0, 3) == ToBE(0, 2) + [0];
    assert ToBE(0, 2) == ToBE(0, 1) + [0];
    assert ToBE(0, 1) == ToBE(0, 0) + [0];
    assert ToBE(9 % TWO32, 4) == [0, 0, 0, 9];
  }

  lemma {:induction false} ZerosAreZero(n: nat)
    ensures BE(Zeros(n)) == 0
  {
    if n > 0 {
      assert Zeros(n)[..n - 1] == Zeros(n - 1);
      ZerosAreZero(n - 1);
    }
  }
}
