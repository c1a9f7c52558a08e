/**
 The SPU instruction decoder: opcodes of seven widths tried in a fixed order, operand
 fields that overlap the opcode, and targets relative to the instruction's address that
 wrap in the 256 KiB local store. An instruction is its format, its opcode, and the
 registers and numbers printed for it, in order.
 */
module SpuDecode {
  import opened Bytes

  datatype Format = Rrr | Ri18 | Ri16 | Channel | Ri10 | Ri8 | Rr | Ri7 | Raw

  datatype Insn = Insn(format: Format, op: nat, regs: seq<nat>, values: seq<int>)

  /** The 11 top bits and the three 7-bit fields of a word. */
  datatype Parts = Parts(op: nat, b: nat, a: nat, t: nat)

  const TWO9: nat := 0x200
  const TWO14: nat := 0x4000
  const TWO16: nat := 0x1_0000
  const TWO18: nat := 0x4_0000
  const TWO21: nat := 0x20_0000
  const TWO32: nat := 0x1_0000_0000

  ghost predicate InParts(p: Parts) {
    p.op < 2048 && p.b < 128 && p.a < 128 && p.t < 128
  }

  function Split(w: nat): Parts {
    Parts(w / TWO21 % 2048, w / TWO14 % 128, w / 128 % 128, w % 128)
  }

  function Join(p: Parts): nat {
    p.op * TWO21 + p.b * TWO14 + p.a * 128 + p.t
  }

  function SignExtend(v: nat, half: nat): int {
    if v >= half then v - 2 * half else v
  }

  // ----- the opcode tables -----------------------------------------------------------------

  predicate InTable(f: Format, op: nat) {
    match f
    case Rrr => op in {0x08, 0x0B, 0x0C, 0x0D, 0x0E, 0x0F}
    case Ri18 => op in {0x08, 0x09, 0x21}
    case Ri16 => op in {0x40, 0x41, 0x42, 0x44, 0x46, 0x47, 0x60, 0x61, 0x62, 0x64, 0x65, 0x66, 0x67, 0x81, 0x82, 0x83, 0xC1}
    case Channel => op in {0x0D, 0x0F, 0x10D}
    case Ri10 => InRi10(op)
    case Ri8 => 0x1D8 <= op <= 0x1DB
    case Rr => InRrLow(op) || InRrHigh(op)
    case Ri7 => 0x78 <= op <= 0x7F || (0x1F4 <= op <= 0x1FF && op != 0x1FA && op != 0x1FE)
    case Raw => false
  }

  predicate InRi10(op: nat) {
    op in {0x04, 0x05, 0x06, 0x0C, 0x0D, 0x14, 0x15, 0x16, 0x1C, 0x1D, 0x24, 0x34, 0x44, 0x45, 0x46, 0x4C, 0x4D, 0x4E, 0x4F,
           0x5C, 0x5D, 0x5E, 0x5F, 0x74, 0x75, 0x7C, 0x7D, 0x7E, 0x7F}
  }

  /** The register forms below 0x200, but for the channel opcodes, which are taken before. */
  predicate InRrLow(op: nat) {
    op in {0x00, 0x01, 0x02, 0x03, 0x0C, 0x40, 0x41, 0x42, 0x48, 0x49, 0x53, 0x58, 0x59, 0x5A, 0x5B, 0x5C, 0x5D, 0x5E, 0x5F,
           0xC0, 0xC1, 0xC2, 0xC8, 0xC9, 0xD3, 0x10C, 0x128, 0x129, 0x12A, 0x12B, 0x140, 0x144, 0x1A8, 0x1A9, 0x1AA, 0x1AB,
           0x1AC, 0x1B0, 0x1B1, 0x1B2, 0x1B4, 0x1B5, 0x1B6, 0x1B8, 0x1B9, 0x1C4, 0x1CC, 0x1CD, 0x1CF, 0x1D4, 0x1D5, 0x1D6,
           0x1D7, 0x1D8, 0x1D9, 0x1DB, 0x1DC, 0x1DD, 0x1DF, 0x1F0}
  }

  predicate InRrHigh(op: nat) {
    op in {0x201, 0x240, 0x241, 0x248, 0x249, 0x250, 0x253, 0x258, 0x2A5, 0x2A6, 0x2AE, 0x2B4, 0x2B6, 0x2C0, 0x2C1, 0x2C2,
           0x2C3, 0x2C4, 0x2C5, 0x2C6, 0x2C8, 0x2C9, 0x2CA, 0x2CB, 0x2CC, 0x2CD, 0x2CE, 0x2D0, 0x2D8, 0x340, 0x341, 0x342,
           0x343, 0x346, 0x34E, 0x35C, 0x35D, 0x35E, 0x35F, 0x398, 0x3B8, 0x3B9, 0x3BA, 0x3BF, 0x3C0, 0x3C2, 0x3C3, 0x3C4,
           0x3C5, 0x3C6, 0x3C7, 0x3C8, 0x3CA, 0x3CB, 0x3CC, 0x3CE, 0x3D0, 0x3D4, 0x3D8}
  }

  /** How many values of the 11 top bits share an opcode of this width. */
  function Span(f: Format): (n: nat)
    ensures n > 0
  {
    match f
    case Rrr => 128
    case Ri18 => 16
    case Ri16 => 4
    case Ri10 => 8
    case Ri8 => 2
    case _ => 1
  }

  predicate Claims(f: Format, op11: nat) {
    InTable(f, op11 / Span(f))
  }

  /** The order in which the decoder tries the formats. */
  function FormatOf(op11: nat): Format {
    if Claims(Rrr, op11) then Rrr
    else if Claims(Ri18, op11) then Ri18
    else if Claims(Ri16, op11) then Ri16
    else if Claims(Channel, op11) then Channel
    else if Claims(Ri10, op11) then Ri10
    else if Claims(Ri8, op11) then Ri8
    else if Claims(Rr, op11) then Rr
    else if Claims(Ri7, op11) then Ri7
    else Raw
  }

  // ----- operands ----------------------------------------------------------------------------

  datatype Shape =
    | FourRegs | RegU18 | HintAbs | HintRel
    | RegS16 | RegU16 | RegAbsQuad | RegRelQuad | RegRel | Rel | Abs | RegAbs
    | ChannelFirst | ChannelLast | RegS10 | RegDisp | RegU8
    | ThreeRegs | OneReg | TwoRegs | HintReg | Code | NoOperand | SyncBit
    | RegS7 | RegU7 | WholeWord

  function ShapeOf(f: Format, op: nat): Shape {
    match f
    case Rrr => FourRegs
    case Ri18 => if op == 0x08 then HintAbs else if op == 0x09 then HintRel else RegU18
    case Ri16 =>
      if op == 0x61 || op == 0x41 then RegAbsQuad
      else if op == 0x81 then RegS16
      else if op in {0x40, 0x42, 0x44, 0x46, 0x66} then RegRel
      else if op == 0x64 then Rel
      else if op == 0x60 then Abs
      else if op == 0x62 then RegAbs
      else if op == 0x67 || op == 0x47 then RegRelQuad
      else RegU16
    case Channel => if op == 0x10D then ChannelFirst else ChannelLast
    case Ri10 => if op == 0x34 || op == 0x24 then RegDisp else RegS10
    case Ri8 => RegU8
    case Rr =>
      if op == 0x1A8 then OneReg
      else if op in {0x1A9, 0x128, 0x129, 0x12A, 0x12B, 0x2A5, 0x2B4, 0x1B0, 0x1B1, 0x398, 0x1F0, 0x1B4, 0x1B6} then TwoRegs
      else if op == 0x1AC then HintReg
      else if op == 0x00 then Code
      else if op == 0x02 then SyncBit
      else if op in {0x01, 0x03, 0x201} then NoOperand
      else ThreeRegs
    case Ri7 => if 0x1F4 <= op <= 0x1F7 then RegU7 else RegS7
    case Raw => WholeWord
  }

  function I8(p: Parts): nat { p.op % 2 * 128 + p.b }

  function I10(p: Parts): nat { p.op % 8 * 128 + p.b }

  function I16(p: Parts): nat { p.op % 4 * TWO14 + p.b * 128 + p.a }

  function I18(p: Parts): nat { p.op % 16 * TWO14 + p.b * 128 + p.a }

  /** A word-scaled signed field added to the address, in the 18-bit local store. */
  function RelTarget(u: nat, addr: nat): int {
    (SignExtend(u, 0x8000) * 4 + addr) % TWO18
  }

  /** The branch a hint is about, from nine bits split over the word. */
  function HintAt(high: nat, low: nat, addr: nat): int {
    (SignExtend(high * 128 + low, 256) * 4 + addr) % TWO32
  }

  function Operands(s: Shape, p: Parts, addr: nat): (seq<nat>, seq<int>) {
    match s
    case FourRegs => ([p.op % 128, p.a, p.b, p.t], [])
    case RegU18 => ([p.t], [I18(p)])
    case HintAbs => ([], [HintAt(I18(p) / TWO16 % 4, p.t, addr), I18(p) % TWO16 * 4])
    case HintRel => ([], [HintAt(I18(p) / TWO16 % 4, p.t, addr), (SignExtend(I18(p), 0x2_0000) * 4 + addr) % TWO18])
    case RegS16 => ([p.t], [SignExtend(I16(p), 0x8000)])
    case RegU16 => ([p.t], [I16(p)])
    case RegAbsQuad => ([p.t], [I16(p) / 4 * 16])
    case RegRelQuad => ([p.t], [RelTarget(I16(p), addr) / 16 * 16])
    case RegRel => ([p.t], [RelTarget(I16(p), addr)])
    case Rel => ([], [RelTarget(I16(p), addr)])
    case Abs => ([], [RelTarget(I16(p), 0)])
    case RegAbs => ([p.t], [RelTarget(I16(p), 0)])
    case ChannelFirst => ([p.a, p.t], [])
    case ChannelLast => ([p.t, p.a], [])
    case RegS10 => ([p.t, p.a], [SignExtend(I10(p), 0x200)])
    case RegDisp => ([p.t, p.a], [SignExtend(I10(p), 0x200) * 16])
    case RegU8 => ([p.t, p.a], [I8(p)])
    case ThreeRegs => ([p.t, p.a, p.b], [])
    case OneReg => ([p.a], [])
    case TwoRegs => ([p.t, p.a], [])
    case HintReg => ([p.a], [HintAt(p.b % 4, p.t, addr)])
    case Code => ([], [p.a * 128 + p.t])
    case NoOperand => ([], [])
    case SyncBit => ([], [p.b / 64])
    case RegS7 => ([p.t, p.a], [SignExtend(p.b, 64)])
    case RegU7 => ([p.t, p.a], [p.b])
    case WholeWord => ([], [Join(p)])
  }

  function DecodeParts(p: Parts, addr: nat): Insn {
    var f := FormatOf(p.op);
    var op := if f == Raw then 0 else p.op / Span(f);
    var (regs, values) := Operands(ShapeOf(f, op), p, addr);
    Insn(f, op, regs, values)
  }

  function Decode(w: nat, addr: nat): Insn {
    DecodeParts(Split(w), addr)
  }

  lemma OpcodeSlices(op: nat, low: nat)
    requires op < 2048 && low < TWO21
    ensures var w := op * TWO21 + low;
      && w / TWO21 == op && w / 0x1000_0000 == op / 128 && w / 0x200_0000 == op / 16
      && w / 0x100_0000 == op / 8 && w / 0x80_0000 == op / 4 && w / 0x40_0000 == op / 2
  {
  }

  lemma ImmediateSlices(op: nat, b: nat, rest: nat)
    requires op < 2048 && b < 128 && rest < TWO14
    ensures var w := op * TWO21 + b * TWO14 + rest;
      && w / TWO14 % 128 == b && w / TWO14 % 1024 == op % 8 * 128 + b && w / TWO14 % 256 == op % 2 * 128 + b
      && w % TWO14 == rest && w / 0x10_0000 % 2 == b / 64
  {
    var w := op * TWO21 + b * TWO14 + rest;
    assert w / TWO14 == op * 128 + b;
    assert w / 0x10_0000 == op * 2 + b / 64;
  }

  lemma WideSlices(op: nat, b: nat, a: nat, t: nat)
    requires op < 2048 && b < 128 && a < 128 && t < 128
    ensures var w := op * TWO21 + b * TWO14 + a * 128 + t;
      && w % 128 == t && w / 128 % 128 == a
      && w / 128 % TWO16 == op % 4 * TWO14 + b * 128 + a && w / 128 % TWO18 == op % 16 * TWO14 + b * 128 + a
  {
    var w, low := op * TWO21 + b * TWO14 + a * 128 + t, b * 128 + a;
    Bytewise(op * TWO14 + low, t);
    Bytewise(op * 128 + b, a);
    FieldMods(op, low);
  }

  lemma Bytewise(x: nat, t: nat)
    requires t < 128
    ensures (x * 128 + t) / 128 == x && (x * 128 + t) % 128 == t
  {
  }

  lemma FieldMods(op: nat, low: nat)
    requires low < TWO14
    ensures (op * TWO14 + low) % TWO16 == op % 4 * TWO14 + low
    ensures (op * TWO14 + low) % TWO18 == op % 16 * TWO14 + low
  {
    assert op * TWO14 + low == op / 4 * TWO16 + (op % 4 * TWO14 + low);
    assert op * TWO14 + low == op / 16 * TWO18 + (op % 16 * TWO14 + low);
    ModRest(op / 4, op % 4 * TWO14 + low);
    ModRest18(op / 16, op % 16 * TWO14 + low);
  }

  lemma ModRest(q: nat, r: nat)
    requires r < TWO16
    ensures (q * TWO16 + r) % TWO16 == r
  {
  }

  lemma ModRest18(q: nat, r: nat)
    requires r < TWO18
    ensures (q * TWO18 + r) % TWO18 == r
  {
  }

  /** The decoder's shifts and masks, in terms of the four parts. */
  lemma FieldsAreParts(w: nat)
    requires w < TWO32
    ensures var p := Split(w);
      && w == Join(p) && InParts(p)
      && w / 0x1000_0000 == p.op / 128 && w / 0x200_0000 == p.op / 16
      && w / 0x100_0000 == p.op / 8 && w / 0x80_0000 == p.op / 4 && w / 0x40_0000 == p.op / 2
      && w / TWO21 % 128 == p.op % 128
      && w / TWO14 % 1024 == I10(p) && w / TWO14 % 256 == I8(p)
      && w / 128 % TWO16 == I16(p) && w / 128 % TWO18 == I18(p)
      && w % TWO14 == p.a * 128 + p.t && w / 0x10_0000 % 2 == p.b / 64
  {
    JoinsSplit(w);
    var p := Split(w);
    OpcodeSlices(p.op, p.b * TWO14 + p.a * 128 + p.t);
    ImmediateSlices(p.op, p.b, p.a * 128 + p.t);
    WideSlices(p.op, p.b, p.a, p.t);
  }

  lemma JoinsSplit(w: nat)
    requires w < TWO32
    ensures Join(Split(w)) == w && InParts(Split(w))
  {
    var x := w / 128;
    var y := w / TWO14;
    assert y == x / 128 && w / TWO21 == y / 128;
  }

  lemma HighParts(p: Parts)
    requires InParts(p)
    ensures Join(p) < TWO32 && Join(p) / TWO21 % 2048 == p.op && Join(p) / TWO14 % 128 == p.b
  {
    OpcodeSlices(p.op, p.b * TWO14 + p.a * 128 + p.t);
    ImmediateSlices(p.op, p.b, p.a * 128 + p.t);
  }

  lemma SplitsJoined(p: Parts)
    requires InParts(p)
    ensures Join(p) < TWO32 && Split(Join(p)) == p
  {
    HighParts(p);
    WideSlices(p.op, p.b, p.a, p.t);
  }

  // ----- the tables are prefix-free ------------------------------------------------------------

  lemma Halved(op11: nat)
    ensures op11 / 128 == op11 / 16 / 8 && op11 / 128 == op11 / 4 / 32 && op11 / 128 == op11 / 8 / 16
    ensures op11 / 16 == op11 / 4 / 4 && op11 / 16 == op11 / 8 / 2 && op11 / 8 == op11 / 4 / 2
  {
  }

  lemma Ri16Alone(op11: nat)
    requires Claims(Ri16, op11)
    ensures !Claims(Rrr, op11) && !Claims(Ri18, op11)
  {
    Halved(op11);
  }

  lemma Ri10Bounds(o: nat)
    requires InRi10(o)
    ensures o / 16 < 8 && o / 2 !in {0x08, 0x09, 0x21} && o != 1 && o != 0x21
  {
  }

  lemma Ri10NotRi16(o: nat)
    requires InRi10(o)
    ensures !InTable(Ri16, 2 * o) && !InTable(Ri16, 2 * o + 1)
  {
  }

  lemma Ri10Alone(op11: nat)
    requires Claims(Ri10, op11)
    ensures !Claims(Rrr, op11) && !Claims(Ri18, op11) && !Claims(Ri16, op11) && !Claims(Channel, op11)
  {
    var o := op11 / 8;
    Ri10Bounds(o);
    Ri10NotRi16(o);
    Halved(op11);
    hide InRi10;
    assert op11 / 4 == 2 * o || op11 / 4 == 2 * o + 1;
    assert 0x0D / 8 == 1 && 0x0F / 8 == 1 && 0x10D / 8 == 0x21;
  }

  lemma RrLowAlone(op: nat)
    requires InRrLow(op)
    ensures op / 128 < 4 && op / 16 !in {0x08, 0x09, 0x21} && !InTable(Ri16, op / 4)
    ensures !InRi10(op / 8) && op !in {0x0D, 0x0F, 0x10D} && op / 2 < 0x100
  {
  }

  lemma RrHighAlone(op: nat)
    requires InRrHigh(op)
    ensures op / 128 < 8 && op / 16 !in {0x08, 0x09, 0x21} && !InTable(Ri16, op / 4)
    ensures op !in {0x0D, 0x0F, 0x10D} && !(0x1D8 <= op / 2 <= 0x1DB)
  {
  }

  lemma RrHighNotRi10(op: nat)
    requires InRrHigh(op)
    ensures !InRi10(op / 8)
  {
  }

  lemma Ri7LowAlone(op: nat)
    requires 0x78 <= op <= 0x7F
    ensures op / 128 == 0 && op / 16 == 7 && op / 4 in {0x1E, 0x1F} && op / 8 == 0x0F && op / 2 < 0x100
    ensures !InTable(Ri16, op / 4) && !InRi10(op / 8) && !InRrLow(op) && !InRrHigh(op)
  {
  }

  lemma Ri7HighAlone(op: nat)
    requires InTable(Ri7, op) && op >= 0x1F4
    ensures op / 128 == 3 && op / 16 == 0x1F && op / 4 in {0x7D, 0x7E, 0x7F} && op / 8 in {0x3E, 0x3F} && op / 2 < 0x100
    ensures !InTable(Ri16, op / 4) && !InRi10(op / 8) && !InRrLow(op) && !InRrHigh(op)
  {
  }

  lemma ChannelAlone(op11: nat)
    requires Claims(Channel, op11)
    ensures op11 / 128 < 8 && op11 / 16 !in {0x08, 0x09, 0x21} && !InTable(Ri16, op11 / 4)
  {
  }

  lemma Ri8Alone(op11: nat)
    requires Claims(Ri8, op11)
    ensures op11 / 128 == 7 && op11 / 16 == 0x3B && op11 / 8 == 0x76 && !InRi10(op11 / 8)
    ensures op11 / 4 in {0xEC, 0xED} && !InTable(Ri16, op11 / 4) && op11 !in {0x0D, 0x0F, 0x10D}
  {
  }

  /** None of the formats tried up to n claims the opcode. */
  ghost predicate Passed(op11: nat, n: nat) {
    && !Claims(Rrr, op11)
    && (n >= 2 ==> !Claims(Ri18, op11))
    && (n >= 3 ==> !Claims(Ri16, op11))
    && (n >= 4 ==> !Claims(Channel, op11))
    && (n >= 5 ==> !Claims(Ri10, op11))
    && (n >= 6 ==> !Claims(Ri8, op11))
    && (n >= 7 ==> !Claims(Rr, op11))
  }

  lemma Ri18Passes(op11: nat)
    requires op11 < 2048 && Claims(Ri18, op11)
    ensures Passed(op11, 1)
  {
    Halved(op11);
  }

  lemma ChannelPasses(op11: nat)
    requires Claims(Channel, op11)
    ensures Passed(op11, 3)
  {
    ChannelAlone(op11);
  }

  lemma Ri8Passes(op11: nat)
    requires Claims(Ri8, op11)
    ensures Passed(op11, 5)
  {
    hide InRi10;
    Ri8Alone(op11);
  }

  lemma RrLowPasses(op11: nat)
    requires InRrLow(op11)
    ensures Passed(op11, 6)
  {
    hide InRi10, InRrLow;
    RrLowAlone(op11);
  }

  lemma RrHighPasses(op11: nat)
    requires InRrHigh(op11)
    ensures Passed(op11, 6)
  {
    hide InRi10, InRrHigh;
    RrHighAlone(op11);
    RrHighNotRi10(op11);
  }

  lemma Ri7Passes(op11: nat)
    requires Claims(Ri7, op11)
    ensures Passed(op11, 7)
  {
    hide InRi10, InRrLow, InRrHigh;
    if op11 < 0x1F4 { Ri7LowAlone(op11); } else { Ri7HighAlone(op11); }
  }

  /** Whichever format claims an opcode is the one the decoder takes: no entry of one width
      begins another, so the order of its checks does not matter. */
  lemma FormatIsClaim(op11: nat, f: Format)
    requires op11 < 2048 && Claims(f, op11)
    ensures FormatOf(op11) == f
  {
    RawClaimsNothing(op11);
    RrClaims(op11);
    hide Claims, InRrLow, InRrHigh;
    match f
    case Ri18 => Ri18Passes(op11);
    case Ri16 => Ri16Alone(op11);
    case Channel => ChannelPasses(op11);
    case Ri10 => Ri10Alone(op11);
    case Ri8 => Ri8Passes(op11);
    case Rr => if InRrLow(op11) { RrLowPasses(op11); } else { RrHighPasses(op11); }
    case Ri7 => Ri7Passes(op11);
    case _ =>
  }

  lemma RrClaims(op11: nat)
    ensures Claims(Rr, op11) ==> InRrLow(op11) || InRrHigh(op11)
  {
    hide InRrLow, InRrHigh;
  }

  lemma RawClaimsNothing(op11: nat)
    ensures !Claims(Raw, op11)
  {
  }

  // ----- whole buffers ----------------------------------------------------------------------

  function Listing(data: Bytes, base: nat, n: nat): seq<Insn>
    requires 4 * n <= |data|
  {
    if n == 0 then []
    else Listing(data, base, n - 1) + [Decode(BE(data[4 * (n - 1)..4 * n]), base + 4 * (n - 1))]
  }

  /** One instruction per whole word; a rest of up to three bytes is left. */
  method Disassemble(data: Bytes, base: nat) returns (insns: seq<Insn>)
    ensures insns == Listing(data, base, |data| / 4)
  {
    hide Decode, BE;
    insns := [];
    var off := 0;
    while off + 3 < |data|
      invariant off % 4 == 0 && off <= |data| && insns == Listing(data, base, off / 4)
    {
      insns := insns + [Decode(BE(data[off..off + 4]), base + off)];
      off := off + 4;
    }
  }
}
