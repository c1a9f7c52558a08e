/**
 The assembler that inverts the SPU decoder: which instructions a format can print, the
 word each encodes to, and the round trips in both directions.
 */
module SpuEncode {
  import opened Bytes
  import opened SpuDecode

  // ----- the encoder -----------------------------------------------------------------------

  ghost predicate AreRegs(regs: seq<nat>, n: nat) {
    |regs| == n && forall k :: 0 <= k < n ==> regs[k] < 128
  }

  /** A branch within 256 words of the hint, as a 32-bit address. */
  ghost predicate HintFits(v: int, addr: nat) {
    0 <= v < TWO32 && (v - addr) % 4 == 0 && ((v - addr) % TWO32 < 1024 || (v - addr) % TWO32 >= TWO32 - 1024)
  }

  ghost predicate TargetFits(v: int, addr: nat) {
    0 <= v < TWO18 && (v - addr) % 4 == 0
  }

  /** The registers and numbers a shape can print at an address. */
  ghost predicate Fits(s: Shape, regs: seq<nat>, values: seq<int>, addr: nat) {
    match s
    case FourRegs => AreRegs(regs, 4) && values == []
    case RegU18 => AreRegs(regs, 1) && |values| == 1 && 0 <= values[0] < TWO18
    case HintAbs => regs == [] && |values| == 2 && HintFits(values[0], addr) && TargetFits(values[1], 0)
    case HintRel => regs == [] && |values| == 2 && HintFits(values[0], addr) && TargetFits(values[1], addr)
    case RegS16 => AreRegs(regs, 1) && |values| == 1 && -0x8000 <= values[0] < 0x8000
    case RegU16 => AreRegs(regs, 1) && |values| == 1 && 0 <= values[0] < TWO16
    case RegAbsQuad => AreRegs(regs, 1) && |values| == 1 && 0 <= values[0] < TWO18 && values[0] % 16 == 0
    case RegRelQuad => AreRegs(regs, 1) && |values| == 1 && TargetFits(values[0], addr) && values[0] % 16 == 0
    case RegRel => AreRegs(regs, 1) && |values| == 1 && TargetFits(values[0], addr)
    case Rel => regs == [] && |values| == 1 && TargetFits(values[0], addr)
    case Abs => regs == [] && |values| == 1 && TargetFits(values[0], 0)
    case RegAbs => AreRegs(regs, 1) && |values| == 1 && TargetFits(values[0], 0)
    case ChannelFirst => AreRegs(regs, 2) && values == []
    case ChannelLast => AreRegs(regs, 2) && values == []
    case RegS10 => AreRegs(regs, 2) && |values| == 1 && -0x200 <= values[0] < 0x200
    case RegDisp => AreRegs(regs, 2) && |values| == 1 && -0x2000 <= values[0] < 0x2000 && values[0] % 16 == 0
    case RegU8 => AreRegs(regs, 2) && |values| == 1 && 0 <= values[0] < 256
    case ThreeRegs => AreRegs(regs, 3) && values == []
    case OneReg => AreRegs(regs, 1) && values == []
    case TwoRegs => AreRegs(regs, 2) && values == []
    case HintReg => AreRegs(regs, 1) && |values| == 1 && HintFits(values[0], addr)
    case Code => regs == [] && |values| == 1 && 0 <= values[0] < TWO14
    case NoOperand => regs == [] && values == []
    case SyncBit => regs == [] && |values| == 1 && 0 <= values[0] < 2
    case RegS7 => AreRegs(regs, 2) && |values| == 1 && -64 <= values[0] < 64
    case RegU7 => AreRegs(regs, 2) && |values| == 1 && 0 <= values[0] < 128
    case WholeWord => regs == [] && |values| == 1 && 0 <= values[0] < TWO32 && FormatOf(values[0] / TWO21) == Raw
  }

  ghost predicate WellFormed(x: Insn, addr: nat) {
    && Fits(ShapeOf(x.format, x.op), x.regs, x.values, addr)
    && (if x.format == Raw then x.op == 0 else InTable(x.format, x.op))
  }

  /** The field of a local-store target, and of a hint. */
  function TargetField(v: int, addr: nat): nat {
    (v - addr) % TWO18 / 4
  }

  function HintField(v: int, addr: nat): nat {
    (v - addr) % TWO32 / 4 % TWO9
  }

  /** The parts below the opcode: its low bits, and the three fields. */
  function Narrow8(u: nat, a: nat, t: nat): Parts { Parts(u / 128, u % 128, a, t) }

  function Narrow16(u: nat, t: nat): Parts { Parts(u / TWO14, u / 128 % 128, u % 128, t) }

  function Fields(s: Shape, regs: seq<nat>, values: seq<int>, addr: nat): Parts
    requires Fits(s, regs, values, addr)
  {
    match s
    case FourRegs => Parts(regs[0], regs[2], regs[1], regs[3])
    case RegU18 => Narrow16(values[0], regs[0])
    case HintAbs => Narrow16(HintField(values[0], addr) / 128 * TWO16 + TargetField(values[1], 0), HintField(values[0], addr) % 128)
    case HintRel => Narrow16(HintField(values[0], addr) / 128 * TWO16 + TargetField(values[1], addr), HintField(values[0], addr) % 128)
    case RegS16 => Narrow16(values[0] % TWO16, regs[0])
    case RegU16 => Narrow16(values[0], regs[0])
    case RegAbsQuad => Narrow16(values[0] / 4, regs[0])
    case RegRelQuad => Narrow16(TargetField(values[0], addr), regs[0])
    case RegRel => Narrow16(TargetField(values[0], addr), regs[0])
    case Rel => Narrow16(TargetField(values[0], addr), 0)
    case Abs => Narrow16(TargetField(values[0], 0), 0)
    case RegAbs => Narrow16(TargetField(values[0], 0), regs[0])
    case ChannelFirst => Parts(0, 0, regs[0], regs[1])
    case ChannelLast => Parts(0, 0, regs[1], regs[0])
    case RegS10 => Narrow8(values[0] % 1024, regs[1], regs[0])
    case RegDisp => Narrow8(values[0] / 16 % 1024, regs[1], regs[0])
    case RegU8 => Narrow8(values[0], regs[1], regs[0])
    case ThreeRegs => Parts(0, regs[2], regs[1], regs[0])
    case OneReg => Parts(0, 0, regs[0], 0)
    case TwoRegs => Parts(0, 0, regs[1], regs[0])
    case HintReg => Parts(0, HintField(values[0], addr) / 128, regs[0], HintField(values[0], addr) % 128)
    case Code => Parts(0, 0, values[0] / 128, values[0] % 128)
    case NoOperand => Parts(0, 0, 0, 0)
    case SyncBit => Parts(0, values[0] * 64, 0, 0)
    case RegS7 => Parts(0, values[0] % 128, regs[1], regs[0])
    case RegU7 => Parts(0, values[0], regs[1], regs[0])
    case WholeWord => Split(values[0])
  }

  function Base(f: Format, op: nat): nat {
    match f
    case Rrr => op * 128
    case Ri18 => op * 16
    case Ri16 => op * 4
    case Ri10 => op * 8
    case Ri8 => op * 2
    case _ => op
  }

  function EncodeParts(x: Insn, addr: nat): Parts
    requires WellFormed(x, addr)
  {
    var p := Fields(ShapeOf(x.format, x.op), x.regs, x.values, addr);
    p.(op := Base(x.format, x.op) + p.op)
  }

  function Encode(x: Insn, addr: nat): nat
    requires WellFormed(x, addr)
  {
    Join(EncodeParts(x, addr))
  }

  // ----- the round trip ------------------------------------------------------------------------

  /** A word-aligned local-store address has exactly one field, and it decodes to it. */
  lemma TargetRoundTrip(v: int, addr: nat)
    requires TargetFits(v, addr)
    ensures TargetField(v, addr) < TWO16 && RelTarget(TargetField(v, addr), addr) == v
  {
    var d := (v - addr) % TWO18;
    QuarterOf(v - addr);
    SignedScaled(d / 4);
    hide SignExtend;
    WrapsTo(v, addr, SignExtend(d / 4, 0x8000) * 4);
  }

  lemma QuarterOf(x: int)
    requires x % 4 == 0
    ensures x % TWO18 % 4 == 0 && x % TWO18 / 4 < TWO16 && x % TWO18 / 4 * 4 == x % TWO18
  {
    assert x == x / TWO18 * TWO18 + x % TWO18;
  }

  lemma SignedScaled(u: nat)
    ensures SignExtend(u, 0x8000) * 4 == 4 * u || SignExtend(u, 0x8000) * 4 == 4 * u - TWO18
  {
  }

  lemma WrapsTo(v: int, addr: nat, x: int)
    requires 0 <= v < TWO18 && (x == (v - addr) % TWO18 || x == (v - addr) % TWO18 - TWO18)
    ensures (x + addr) % TWO18 == v
  {
    var q := (v - addr) / TWO18;
    assert (v - addr) % TWO18 == v - addr - q * TWO18;
    var k := if x == (v - addr) % TWO18 then q else q + 1;
    assert x + addr == v - k * TWO18;
  }

  /** Different fields give different targets: the wrap loses nothing. */
  lemma TargetsDiffer(u: nat, v: nat, addr: nat)
    requires u < TWO16 && v < TWO16 && RelTarget(u, addr) == RelTarget(v, addr)
    ensures u == v
  {
    SignedScaled(u);
    SignedScaled(v);
    var a, b := SignExtend(u, 0x8000) * 4 + addr, SignExtend(v, 0x8000) * 4 + addr;
    assert (a - b) % TWO18 == 0;
  }

  lemma HintRoundTrip(v: int, addr: nat)
    requires HintFits(v, addr)
    ensures var u := HintField(v, addr); u < TWO9 && HintAt(u / 128, u % 128, addr) == v
  {
    var d := (v - addr) % TWO32;
    var u := d / 4 % TWO9;
    assert d % 4 == 0;
    assert u / 128 * 128 + u % 128 == u;
    HintScaled(d);
    var x := SignExtend(u, 256) * 4;
    var q := (v - addr) / TWO32;
    assert d == v - addr - q * TWO32;
    var k := if d < 1024 then q else q + 1;
    assert x + addr == v - k * TWO32;
  }

  lemma HintScaled(d: nat)
    requires d % 4 == 0 && d < TWO32 && (d < 1024 || d >= TWO32 - 1024)
    ensures SignExtend(d / 4 % TWO9, 256) * 4 == if d < 1024 then d else d - TWO32
  {
    if d < 1024 {
      assert d / 4 % TWO9 == d / 4;
    } else {
      var e := (TWO32 - d) / 4;
      assert d / 4 == TWO32 / 4 - e && 1 <= e <= 256;
      assert TWO32 / 4 == 0x20_0000 * TWO9;
      assert d / 4 == 0x1F_FFFF * TWO9 + (TWO9 - e);
    }
  }

  // ----- fields under an opcode --------------------------------------------------------------

  /** The low bits of the opcode that belong to the fields of a shape. */
  function SpanOf(s: Shape): nat {
    if s == FourRegs then 128
    else if s == RegU18 || s == HintAbs || s == HintRel then 16
    else if s in {RegS16, RegU16, RegAbsQuad, RegRelQuad, RegRel, Rel, Abs, RegAbs} then 4
    else if s == RegS10 || s == RegDisp then 8
    else if s == RegU8 then 2
    else if s == WholeWord then 2048
    else 1
  }

  lemma Wide18(u: nat, op: nat, t: nat)
    requires u < TWO18 && op % 16 == u / TWO14
    ensures u / TWO14 < 16 && I18(Parts(op, u / 128 % 128, u % 128, t)) == u
  {
    assert u / TWO14 == u / 128 / 128;
  }

  lemma Wide16(u: nat, op: nat, t: nat)
    requires u < TWO16 && op % 4 == u / TWO14
    ensures u / TWO14 < 4 && I16(Parts(op, u / 128 % 128, u % 128, t)) == u
  {
    assert u / TWO14 == u / 128 / 128;
  }

  lemma SixteenSigned(v: int)
    requires -0x8000 <= v < 0x8000
    ensures 0 <= v % TWO16 < TWO16 && SignExtend(v % TWO16, 0x8000) == v
  {
  }

  lemma TenSigned(v: int)
    requires -0x200 <= v < 0x200
    ensures 0 <= v % 1024 < 1024 && SignExtend(v % 1024, 0x200) == v
  {
  }

  lemma SevenSigned(v: int)
    requires -64 <= v < 64
    ensures 0 <= v % 128 < 128 && SignExtend(v % 128, 64) == v
  {
  }

  lemma SmallLists(regs: seq<nat>, values: seq<int>)
    ensures |regs| == 1 ==> regs == [regs[0]]
    ensures |regs| == 2 ==> regs == [regs[0], regs[1]]
    ensures |regs| == 3 ==> regs == [regs[0], regs[1], regs[2]]
    ensures |regs| == 4 ==> regs == [regs[0], regs[1], regs[2], regs[3]]
    ensures |values| == 1 ==> values == [values[0]]
    ensures |values| == 2 ==> values == [values[0], values[1]]
  {
  }

  ghost predicate Restores(s: Shape, regs: seq<nat>, values: seq<int>, addr: nat, op: nat)
    requires Fits(s, regs, values, addr)
  {
    var p := Fields(s, regs, values, addr);
    && p.op < SpanOf(s) && p.b < 128 && p.a < 128 && p.t < 128
    && Operands(s, p.(op := op), addr) == (regs, values)
  }

  ghost predicate Under(s: Shape, regs: seq<nat>, values: seq<int>, addr: nat, op: nat)
    requires Fits(s, regs, values, addr)
  {
    op % SpanOf(s) == Fields(s, regs, values, addr).op
  }

  lemma HintsRead(s: Shape, regs: seq<nat>, values: seq<int>, addr: nat, op: nat)
    requires Fits(s, regs, values, addr) && Under(s, regs, values, addr, op) && (s == HintAbs || s == HintRel)
    ensures Restores(s, regs, values, addr, op)
  {
    hide HintAt, HintField, RelTarget, TargetField, I18;
    SmallLists(regs, values);
    var base := if s == HintAbs then 0 else addr;
    HintRoundTrip(values[0], addr);
    TargetRoundTrip(values[1], base);
    var h, f := HintField(values[0], addr), TargetField(values[1], base);
    var u := h / 128 * TWO16 + f;
    Wide18(u, op, h % 128);
    assert u / TWO16 % 4 == h / 128 && u % TWO16 == f;
    if s == HintAbs { AbsoluteField(values[1]); } else { RelativeHint(u, f, addr); }
  }

  lemma AbsoluteField(v: int)
    requires TargetFits(v, 0)
    ensures TargetField(v, 0) * 4 == v && TargetField(v, 0) == v / 4
  {
  }

  /** The two top bits of the wide field fall outside the local store. */
  lemma RelativeHint(u: nat, f: nat, addr: nat)
    requires u < TWO18 && f == u % TWO16
    ensures (SignExtend(u, 0x2_0000) * 4 + addr) % TWO18 == RelTarget(f, addr)
  {
    var x, y := SignExtend(u, 0x2_0000) * 4 + addr, SignExtend(f, 0x8000) * 4 + addr;
    assert u == u / TWO16 * TWO16 + f;
    assert (x - y) % TWO18 == 0;
  }

  lemma TargetReads(s: Shape, regs: seq<nat>, values: seq<int>, addr: nat, op: nat)
    requires Fits(s, regs, values, addr) && Under(s, regs, values, addr, op) && (s == RegRel || s == Rel)
    ensures Restores(s, regs, values, addr, op)
  {
    hide RelTarget, TargetField, I16, I18, I10, I8, HintAt, HintField, SignExtend;
    SmallLists(regs, values);
    TargetRoundTrip(values[0], addr);
    Wide16(TargetField(values[0], addr), op, if s == Rel then 0 else regs[0]);
  }

  lemma AbsoluteReads(s: Shape, regs: seq<nat>, values: seq<int>, addr: nat, op: nat)
    requires Fits(s, regs, values, addr) && Under(s, regs, values, addr, op) && (s == Abs || s == RegAbs)
    ensures Restores(s, regs, values, addr, op)
  {
    hide RelTarget, TargetField, I16, I18, I10, I8, HintAt, HintField, SignExtend;
    SmallLists(regs, values);
    TargetRoundTrip(values[0], 0);
    Wide16(TargetField(values[0], 0), op, if s == Abs then 0 else regs[0]);
  }

  lemma QuadReads(regs: seq<nat>, values: seq<int>, addr: nat, op: nat)
    requires Fits(RegRelQuad, regs, values, addr) && Under(RegRelQuad, regs, values, addr, op)
    ensures Restores(RegRelQuad, regs, values, addr, op)
  {
    hide RelTarget, TargetField, I16, I18, I10, I8, HintAt, HintField, SignExtend;
    SmallLists(regs, values);
    TargetRoundTrip(values[0], addr);
    Wide16(TargetField(values[0], addr), op, regs[0]);
  }

  lemma TargetsRead(s: Shape, regs: seq<nat>, values: seq<int>, addr: nat, op: nat)
    requires Fits(s, regs, values, addr) && Under(s, regs, values, addr, op) && s in {RegRelQuad, RegRel, Rel, Abs, RegAbs}
    ensures Restores(s, regs, values, addr, op)
  {
    hide Fits, Under, Restores;
    if s == RegRelQuad {
      QuadReads(regs, values, addr, op);
    } else if s == Abs || s == RegAbs {
      AbsoluteReads(s, regs, values, addr, op);
    } else {
      TargetReads(s, regs, values, addr, op);
    }
  }

  lemma UnsignedReads(regs: seq<nat>, values: seq<int>, addr: nat, op: nat)
    requires Fits(RegU16, regs, values, addr) && Under(RegU16, regs, values, addr, op)
    ensures Restores(RegU16, regs, values, addr, op)
  {
    hide RelTarget, TargetField, I16, I18, I10, I8, HintAt, HintField, SignExtend;
    SmallLists(regs, values);
    Wide16(values[0], op, regs[0]);
  }

  lemma AbsQuadReads(regs: seq<nat>, values: seq<int>, addr: nat, op: nat)
    requires Fits(RegAbsQuad, regs, values, addr) && Under(RegAbsQuad, regs, values, addr, op)
    ensures Restores(RegAbsQuad, regs, values, addr, op)
  {
    hide RelTarget, TargetField, I16, I18, I10, I8, HintAt, HintField, SignExtend;
    SmallLists(regs, values);
    Wide16(values[0] / 4, op, regs[0]);
    QuadBack(values[0]);
  }

  lemma QuadBack(v: nat)
    requires v % 16 == 0
    ensures v / 4 / 4 * 16 == v
  {
  }

  lemma SignedReads(regs: seq<nat>, values: seq<int>, addr: nat, op: nat)
    requires Fits(RegS16, regs, values, addr) && Under(RegS16, regs, values, addr, op)
    ensures Restores(RegS16, regs, values, addr, op)
  {
    hide RelTarget, TargetField, I16, I18, I10, I8, HintAt, HintField, SignExtend;
    SmallLists(regs, values);
    SixteenSigned(values[0]);
    Wide16(values[0] % TWO16, op, regs[0]);
  }

  lemma AddressReads(regs: seq<nat>, values: seq<int>, addr: nat, op: nat)
    requires Fits(RegU18, regs, values, addr) && Under(RegU18, regs, values, addr, op)
    ensures Restores(RegU18, regs, values, addr, op)
  {
    hide RelTarget, TargetField, I16, I18, I10, I8, HintAt, HintField, SignExtend;
    SmallLists(regs, values);
    Wide18(values[0], op, regs[0]);
  }

  lemma ImmediatesRead(s: Shape, regs: seq<nat>, values: seq<int>, addr: nat, op: nat)
    requires Fits(s, regs, values, addr) && Under(s, regs, values, addr, op) && s in {RegU18, RegS16, RegU16, RegAbsQuad}
    ensures Restores(s, regs, values, addr, op)
  {
    hide Fits, Under, Restores;
    if s == RegU18 {
      AddressReads(regs, values, addr, op);
    } else if s == RegS16 {
      SignedReads(regs, values, addr, op);
    } else if s == RegU16 {
      UnsignedReads(regs, values, addr, op);
    } else {
      AbsQuadReads(regs, values, addr, op);
    }
  }

  lemma Narrow10(u: nat, op: nat, a: nat, t: nat)
    requires u < 1024 && op % 8 == u / 128
    ensures u / 128 < 8 && I10(Parts(op, u % 128, a, t)) == u
  {
  }

  lemma TenReads(regs: seq<nat>, values: seq<int>, addr: nat, op: nat)
    requires Fits(RegS10, regs, values, addr) && Under(RegS10, regs, values, addr, op)
    ensures Restores(RegS10, regs, values, addr, op)
  {
    hide RelTarget, TargetField, I16, I18, I10, I8, HintAt, HintField, SignExtend;
    SmallLists(regs, values);
    TenSigned(values[0]);
    Narrow10(values[0] % 1024, op, regs[1], regs[0]);
  }

  lemma DisplacementReads(regs: seq<nat>, values: seq<int>, addr: nat, op: nat)
    requires Fits(RegDisp, regs, values, addr) && Under(RegDisp, regs, values, addr, op)
    ensures Restores(RegDisp, regs, values, addr, op)
  {
    hide RelTarget, TargetField, I16, I18, I10, I8, HintAt, HintField, SignExtend;
    SmallLists(regs, values);
    TenSigned(values[0] / 16);
    Narrow10(values[0] / 16 % 1024, op, regs[1], regs[0]);
  }

  lemma SevenReads(regs: seq<nat>, values: seq<int>, addr: nat, op: nat)
    requires Fits(RegS7, regs, values, addr) && Under(RegS7, regs, values, addr, op)
    ensures Restores(RegS7, regs, values, addr, op)
  {
    hide RelTarget, TargetField, I16, I18, I10, I8, HintAt, HintField, SignExtend;
    SmallLists(regs, values);
    SevenSigned(values[0]);
  }

  lemma PlainSevenReads(regs: seq<nat>, values: seq<int>, addr: nat, op: nat)
    requires Fits(RegU7, regs, values, addr) && Under(RegU7, regs, values, addr, op)
    ensures Restores(RegU7, regs, values, addr, op)
  {
    hide RelTarget, TargetField, I16, I18, I10, I8, HintAt, HintField, SignExtend;
    SmallLists(regs, values);
  }

  lemma Narrow8Bits(u: nat, op: nat, a: nat, t: nat)
    requires u < 256 && op % 2 == u / 128
    ensures u / 128 < 2 && I8(Parts(op, u % 128, a, t)) == u
  {
  }

  lemma EightReads(regs: seq<nat>, values: seq<int>, addr: nat, op: nat)
    requires Fits(RegU8, regs, values, addr) && Under(RegU8, regs, values, addr, op)
    ensures Restores(RegU8, regs, values, addr, op)
  {
    hide RelTarget, TargetField, I16, I18, I10, I8, HintAt, HintField, SignExtend;
    SmallLists(regs, values);
    Narrow8Bits(values[0], op, regs[1], regs[0]);
  }

  lemma RegistersRead(s: Shape, regs: seq<nat>, values: seq<int>, addr: nat, op: nat)
    requires Fits(s, regs, values, addr) && Under(s, regs, values, addr, op)
    requires s in {FourRegs, ChannelFirst, ChannelLast, ThreeRegs, OneReg, TwoRegs}
    ensures Restores(s, regs, values, addr, op)
  {
    hide HintAt, HintField, RelTarget, TargetField, I16, I18, I10;
    SmallLists(regs, values);
  }

  lemma HintRegReads(regs: seq<nat>, values: seq<int>, addr: nat, op: nat)
    requires Fits(HintReg, regs, values, addr) && Under(HintReg, regs, values, addr, op)
    ensures Restores(HintReg, regs, values, addr, op)
  {
    hide HintAt, HintField, RelTarget, TargetField, I16, I18, I10, I8, SignExtend;
    SmallLists(regs, values);
    HintRoundTrip(values[0], addr);
    var u := HintField(values[0], addr);
    assert u / 128 < 4 && u / 128 % 4 == u / 128;
  }

  lemma CodeReads(regs: seq<nat>, values: seq<int>, addr: nat, op: nat)
    requires Fits(Code, regs, values, addr) && Under(Code, regs, values, addr, op)
    ensures Restores(Code, regs, values, addr, op)
  {
    hide HintAt, HintField, RelTarget, TargetField, I16, I18, I10, I8, SignExtend;
    SmallLists(regs, values);
  }

  lemma BitsRead(s: Shape, regs: seq<nat>, values: seq<int>, addr: nat, op: nat)
    requires Fits(s, regs, values, addr) && Under(s, regs, values, addr, op) && (s == NoOperand || s == SyncBit)
    ensures Restores(s, regs, values, addr, op)
  {
    hide HintAt, HintField, RelTarget, TargetField, I16, I18, I10, I8, SignExtend;
    SmallLists(regs, values);
  }

  lemma ShapeReads(s: Shape, regs: seq<nat>, values: seq<int>, addr: nat, op: nat)
    requires Fits(s, regs, values, addr) && Under(s, regs, values, addr, op) && s != WholeWord
    ensures Restores(s, regs, values, addr, op)
  {
    hide Fits, Under, Restores;
    if s == HintAbs || s == HintRel {
      HintsRead(s, regs, values, addr, op);
    } else if s in {RegRelQuad, RegRel, Rel, Abs, RegAbs} {
      TargetsRead(s, regs, values, addr, op);
    } else if s in {RegU18, RegS16, RegU16, RegAbsQuad} {
      ImmediatesRead(s, regs, values, addr, op);
    } else if s == RegS10 {
      TenReads(regs, values, addr, op);
    } else if s == RegDisp {
      DisplacementReads(regs, values, addr, op);
    } else if s == RegU8 {
      EightReads(regs, values, addr, op);
    } else if s == RegS7 {
      SevenReads(regs, values, addr, op);
    } else if s == RegU7 {
      PlainSevenReads(regs, values, addr, op);
    } else if s == HintReg {
      HintRegReads(regs, values, addr, op);
    } else if s == Code {
      CodeReads(regs, values, addr, op);
    } else if s == NoOperand || s == SyncBit {
      BitsRead(s, regs, values, addr, op);
    } else {
      RegistersRead(s, regs, values, addr, op);
    }
  }

  lemma SpanAgrees(f: Format, op: nat)
    requires InTable(f, op)
    ensures SpanOf(ShapeOf(f, op)) == Span(f) && ShapeOf(f, op) != WholeWord
  {
    hide InRi10, InRrLow, InRrHigh;
  }

  lemma OpcodeBounds(f: Format, op: nat)
    requires InTable(f, op)
    ensures Base(f, op) + Span(f) <= 2048
  {
  }

  lemma OpcodeUnder(f: Format, op: nat, low: nat)
    requires low < Span(f)
    ensures (Base(f, op) + low) / Span(f) == op && (Base(f, op) + low) % Span(f) == low
  {
  }

  /** Every well-formed instruction encodes to a word that decodes to it at the same address. */
  lemma InsnRoundTrip(x: Insn, addr: nat)
    requires WellFormed(x, addr)
    ensures Encode(x, addr) < TWO32 && Decode(Encode(x, addr), addr) == x
  {
    hide InTable, Fits, Operands, Fields, FormatOf, ShapeOf;
    if x.format == Raw {
      RawRoundTrip(x, addr);
    } else {
      TableRoundTrip(x, addr);
    }
  }

  lemma RawRoundTrip(x: Insn, addr: nat)
    requires WellFormed(x, addr) && x.format == Raw
    ensures Encode(x, addr) < TWO32 && Decode(Encode(x, addr), addr) == x
  {
    hide FormatOf;
    var w := x.values[0];
    JoinsSplit(w);
    assert Split(w).op == w / TWO21;
  }

  lemma TableRoundTrip(x: Insn, addr: nat)
    requires WellFormed(x, addr) && x.format != Raw
    ensures Encode(x, addr) < TWO32 && Decode(Encode(x, addr), addr) == x
  {
    hide InTable, Fits, Operands, Fields, FormatOf, ShapeOf, Base, Span, SpanOf;
    var s := ShapeOf(x.format, x.op);
    var low := Fields(s, x.regs, x.values, addr).op;
    SpanAgrees(x.format, x.op);
    FieldsBelow(s, x.regs, x.values, addr);
    var op := Base(x.format, x.op) + low;
    OpcodeUnder(x.format, x.op, low);
    OpcodeBounds(x.format, x.op);
    ShapeReads(s, x.regs, x.values, addr, op);
    FormatIsClaim(op, x.format);
    SplitsJoined(EncodeParts(x, addr));
  }

  lemma HintFieldsBelow(s: Shape, regs: seq<nat>, values: seq<int>, addr: nat)
    requires Fits(s, regs, values, addr) && (s == HintAbs || s == HintRel)
    ensures Fields(s, regs, values, addr).op < SpanOf(s)
  {
    hide HintAt, RelTarget, HintField, TargetField;
    HintRoundTrip(values[0], addr);
    TargetRoundTrip(values[1], if s == HintAbs then 0 else addr);
  }

  lemma TargetFieldsBelow(s: Shape, regs: seq<nat>, values: seq<int>, addr: nat)
    requires Fits(s, regs, values, addr) && s in {RegRelQuad, RegRel, Rel, Abs, RegAbs}
    ensures Fields(s, regs, values, addr).op < SpanOf(s)
  {
    hide HintAt, RelTarget, HintField, TargetField;
    TargetRoundTrip(values[0], if s in {Abs, RegAbs} then 0 else addr);
  }

  lemma FieldsBelow(s: Shape, regs: seq<nat>, values: seq<int>, addr: nat)
    requires Fits(s, regs, values, addr) && s != WholeWord
    ensures Fields(s, regs, values, addr).op < SpanOf(s)
  {
    hide HintField, TargetField;
    if s in {HintAbs, HintRel} {
      HintFieldsBelow(s, regs, values, addr);
    } else if s in {RegRelQuad, RegRel, Rel, Abs, RegAbs} {
      TargetFieldsBelow(s, regs, values, addr);
    }
  }

  // ----- whole buffers ------------------------------------------------------------------------

  function Assemble(xs: seq<Insn>, base: nat): Bytes
    requires forall k :: 0 <= k < |xs| ==> WellFormed(xs[k], base + 4 * k)
    decreases |xs|
  {
    if xs == [] then []
    else
      var last := |xs| - 1;
      Assemble(xs[..last], base) + ToBE(Encode(xs[last], base + 4 * last), 4)
  }

  lemma {:induction false} ListingOfPrefix(a: Bytes, b: Bytes, base: nat, n: nat)
    requires 4 * n <= |a|
    ensures Listing(a + b, base, n) == Listing(a, base, n)
  {
    hide Decode;
    if n > 0 {
      ListingOfPrefix(a, b, base, n - 1);
      assert (a + b)[4 * (n - 1)..4 * n] == a[4 * (n - 1)..4 * n];
    }
  }

  lemma OneMore(front: Bytes, x: Insn, base: nat, n: nat)
    requires |front| == 4 * n && WellFormed(x, base + 4 * n)
    ensures var data := front + ToBE(Encode(x, base + 4 * n), 4);
      |data| == 4 * (n + 1) && Listing(data, base, n + 1) == Listing(front, base, n) + [x]
  {
    hide WellFormed, Encode, Decode, BE, ToBE;
    var w := Encode(x, base + 4 * n);
    InsnRoundTrip(x, base + 4 * n);
    Fourth(w);
    ListingOfPrefix(front, ToBE(w, 4), base, n);
    assert (front + ToBE(w, 4))[4 * n..4 * (n + 1)] == ToBE(w, 4);
  }

  lemma Fourth(w: nat)
    requires w < TWO32
    ensures BE(ToBE(w, 4)) == w
  {
    assert Pow256(4) == TWO32;
    BEOfToBE(w, 4);
  }

  /** Disassembling what was assembled gives the same instructions back. */
  lemma {:induction false} AssemblyRoundTrip(xs: seq<Insn>, base: nat)
    requires forall k :: 0 <= k < |xs| ==> WellFormed(xs[k], base + 4 * k)
    ensures var data := Assemble(xs, base); |data| == 4 * |xs| && Listing(data, base, |data| / 4) == xs
    decreases |xs|
  {
    hide WellFormed, Encode, Decode, BE, ToBE, Listing;
    if xs == [] {
      NothingListed(base);
    } else {
      var last := |xs| - 1;
      AssemblyRoundTrip(xs[..last], base);
      OneMore(Assemble(xs[..last], base), xs[last], base, last);
      assert xs == xs[..last] + [xs[last]];
    }
  }

  lemma NothingListed(base: nat)
    ensures Listing([], base, 0) == []
  {
  }

  // ----- what the decoder prints is well-formed ------------------------------------------------

  lemma Wrapped(x: int, addr: nat)
    requires x % 4 == 0
    ensures 0 <= (x + addr) % TWO18 < TWO18 && ((x + addr) % TWO18 - addr) % 4 == 0
  {
    var q := (x + addr) / TWO18;
    assert (x + addr) % TWO18 - addr == x - q * TWO18;
  }

  lemma RelFits(u: nat, addr: nat)
    ensures TargetFits(RelTarget(u, addr), addr)
  {
    Wrapped(SignExtend(u, 0x8000) * 4, addr);
  }

  lemma HintWraps(x: int, addr: nat)
    requires x % 4 == 0 && -1024 <= x < 1024
    ensures HintFits((x + addr) % TWO32, addr)
  {
    var q := (x + addr) / TWO32;
    var v := (x + addr) % TWO32;
    assert v - addr == x - q * TWO32;
    WholeTurns(x, q);
  }

  lemma WholeTurns(x: int, q: int)
    requires -1024 <= x < 1024
    ensures (x - q * TWO32) % TWO32 == if x >= 0 then x else x + TWO32
  {
    if x < 0 { assert x - q * TWO32 == (x + TWO32) - (q + 1) * TWO32; }
  }

  lemma HintIsNear(high: nat, low: nat, addr: nat)
    requires high < 4 && low < 128
    ensures HintFits(HintAt(high, low, addr), addr)
  {
    HintWraps(SignExtend(high * 128 + low, 256) * 4, addr);
  }

  ghost predicate Printed(s: Shape, p: Parts, addr: nat) {
    Fits(s, Operands(s, p, addr).0, Operands(s, p, addr).1, addr)
  }

  lemma FieldBounds(p: Parts)
    requires InParts(p)
    ensures I8(p) < 256 && I10(p) < 1024 && I16(p) < TWO16 && I18(p) < TWO18
  {
  }

  lemma HintsPrint(s: Shape, p: Parts, addr: nat)
    requires InParts(p) && (s == HintAbs || s == HintRel || s == HintReg)
    ensures Printed(s, p, addr)
  {
    hide HintAt, SignExtend, RelTarget, HintFits, I18;
    FieldBounds(p);
    HintIsNear(I18(p) / TWO16 % 4, p.t, addr);
    HintIsNear(p.b % 4, p.t, addr);
    Wrapped(SignExtend(I18(p), 0x2_0000) * 4, addr);
  }

  lemma TargetsPrint(s: Shape, p: Parts, addr: nat)
    requires InParts(p) && (s in {RegRel, Rel, Abs, RegAbs} || (s == RegRelQuad && addr % 4 == 0))
    ensures Printed(s, p, addr)
  {
    hide RelTarget, I16;
    RelFits(I16(p), addr);
    RelFits(I16(p), 0);
  }

  lemma NumbersPrint(s: Shape, p: Parts, addr: nat)
    requires InParts(p) && s in {RegU18, RegS16, RegU16, RegAbsQuad, RegS10, RegDisp, RegU8, RegS7, RegU7, Code, SyncBit}
    ensures Printed(s, p, addr)
  {
    hide I8, I10, I16, I18;
    FieldBounds(p);
  }

  lemma ShapePrints(s: Shape, p: Parts, addr: nat)
    requires InParts(p) && addr % 4 == 0 && s != WholeWord
    ensures Printed(s, p, addr)
  {
    hide RelTarget, HintAt, I8, I10, I16, I18, SignExtend;
    if s in {HintAbs, HintRel, HintReg} {
      HintsPrint(s, p, addr);
    } else if s in {RegRel, Rel, Abs, RegAbs, RegRelQuad} {
      TargetsPrint(s, p, addr);
    } else if s in {RegU18, RegS16, RegU16, RegAbsQuad, RegS10, RegDisp, RegU8, RegS7, RegU7, Code, SyncBit} {
      NumbersPrint(s, p, addr);
    }
  }

  lemma ClaimsItself(op11: nat)
    ensures FormatOf(op11) != Raw ==> InTable(FormatOf(op11), op11 / Span(FormatOf(op11)))
  {
    hide InTable, Span;
  }

  /** At a word-aligned address every word decodes to a well-formed instruction. */
  lemma DecodedIsWellFormed(w: nat, addr: nat)
    requires w < TWO32 && addr % 4 == 0
    ensures WellFormed(Decode(w, addr), addr)
  {
    hide InTable, Operands, ShapeOf, FormatOf, Span;
    var p := Split(w);
    JoinsSplit(w);
    ClaimsItself(p.op);
    var f := FormatOf(p.op);
    if f == Raw {
      RawPrints(w, addr);
    } else {
      var op := p.op / Span(f);
      SpanAgrees(f, op);
      ShapePrints(ShapeOf(f, op), p, addr);
    }
  }

  lemma RawPrints(w: nat, addr: nat)
    requires w < TWO32 && FormatOf(Split(w).op) == Raw
    ensures WellFormed(Decode(w, addr), addr)
  {
    hide FormatOf;
    JoinsSplit(w);
    assert Split(w).op == w / TWO21;
  }

  /** So a disassembly assembles again, and to code that disassembles the same, even where
      the words differ in bits the decoder ignores. */
  lemma DisassemblyReassembles(w: nat, addr: nat)
    requires w < TWO32 && addr % 4 == 0
    ensures WellFormed(Decode(w, addr), addr)
    ensures Decode(Encode(Decode(w, addr), addr), addr) == Decode(w, addr)
  {
    hide WellFormed, Decode, Encode;
    DecodedIsWellFormed(w, addr);
    InsnRoundTrip(Decode(w, addr), addr);
  }
}
