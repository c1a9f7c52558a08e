/**
 The operands of every SPU instruction format read straight off the word, bit range by bit
 range, for the opcodes by their numbers. The decoder prints exactly these.
 */
module SpuWords {
  import opened SpuDecode

  /** A field of this size as a two's complement number. */
  function Signed(n: nat, size: nat): int {
    if 2 * n < size then n else n - size
  }

  function RT(w: nat): nat { w % 128 }

  function RA(w: nat): nat { w / 0x80 % 128 }

  function RB(w: nat): nat { w / 0x4000 % 128 }

  /** The 16-bit immediate, bits 7 to 22. */
  function Imm16(w: nat): nat { w / 0x80 % 0x1_0000 }

  lemma Pieces(w: nat)
    requires w < TWO32
    ensures var p := Split(w); p.op == w / 0x20_0000 < 2048 && p.b == RB(w) && p.a == RA(w) && p.t == RT(w)
  {
    assert w / 0x20_0000 < 2048;
  }

  /** An instruction is decoded by the format that claims its opcode. */
  lemma DecodedBy(w: nat, addr: nat, f: Format, op: nat)
    requires w < TWO32 && op == w / 0x20_0000 / Span(f) && InTable(f, op)
    ensures var p := Split(w);
      && p.op == w / 0x20_0000 && p.b == RB(w) && p.a == RA(w) && p.t == RT(w)
      && Decode(w, addr) == Insn(f, op, Operands(ShapeOf(f, op), p, addr).0, Operands(ShapeOf(f, op), p, addr).1)
  {
    hide InTable, FormatOf, ShapeOf, Operands, Split, RT, RA, RB, Span;
    Pieces(w);
    FormatIsClaim(w / 0x20_0000, f);
    RawHasNone(op);
  }

  lemma RawHasNone(op: nat)
    ensures !InTable(Raw, op)
  {
  }

  lemma SignsAgree(n: nat, half: nat)
    ensures SignExtend(n, half) == Signed(n, 2 * half)
  {
  }

  /** Four registers, the destination right under the opcode. */
  lemma RrrOperands(w: nat, addr: nat)
    requires w < TWO32 && w / 0x1000_0000 in {0x8, 0xB, 0xC, 0xD, 0xE, 0xF}
    ensures Decode(w, addr) == Insn(Rrr, w / 0x1000_0000, [w / 0x20_0000 % 128, RA(w), RB(w), RT(w)], [])
  {
    hide FormatOf, Decode, Split, RA, RB, RT;
    Nested(w);
    DecodedBy(w, addr, Rrr, w / 0x1000_0000);
  }

  /** br, and brsl, brz, brnz, brhz and brhnz with a register: the signed immediate in words
      from the instruction's own address, in the 18-bit store. bra, and brasl with a register:
      from address 0. */
  lemma BranchTargets(w: nat, addr: nat)
    requires w < TWO32
    ensures var here, zero := (Signed(Imm16(w), 0x1_0000) * 4 + addr) % 0x4_0000, Signed(Imm16(w), 0x1_0000) * 4 % 0x4_0000;
      var op := w / 0x80_0000;
      && (op == 0x64 ==> Decode(w, addr) == Insn(Ri16, op, [], [here]))
      && (op in {0x66, 0x40, 0x42, 0x44, 0x46} ==> Decode(w, addr) == Insn(Ri16, op, [RT(w)], [here]))
      && (op == 0x60 ==> Decode(w, addr) == Insn(Ri16, op, [], [zero]))
      && (op == 0x62 ==> Decode(w, addr) == Insn(Ri16, op, [RT(w)], [zero]))
  {
    var op := w / 0x80_0000;
    if op in {0x64, 0x66, 0x40, 0x42, 0x44, 0x46, 0x60, 0x62} { Ri16Taken(w, addr); }
    hide FormatOf, Decode, Split, I16;
    SignsAgree(Imm16(w), 0x8000);
  }

  lemma Ri16Taken(w: nat, addr: nat)
    requires w < TWO32 && InTable(Ri16, w / 0x80_0000)
    ensures var p, op := Split(w), w / 0x80_0000;
      && p.t == RT(w) && I16(p) == Imm16(w)
      && Decode(w, addr) == Insn(Ri16, op, Operands(ShapeOf(Ri16, op), p, addr).0, Operands(ShapeOf(Ri16, op), p, addr).1)
  {
    FieldsAreParts(w);
    hide FormatOf, InTable, ShapeOf, Operands, Decode, Split, RT, I16;
    Nested(w);
    DecodedBy(w, addr, Ri16, w / 0x80_0000);
  }

  /** il is signed; ilhu, ilh, iohl and fsmbi are not; lqa and stqa count words from 0, lqr
      and stqr from the instruction, rounded down to a quadword. */
  lemma ImmediateLoads(w: nat, addr: nat)
    requires w < TWO32
    ensures var op := w / 0x80_0000;
      && (op == 0x81 ==> Decode(w, addr) == Insn(Ri16, op, [RT(w)], [Signed(Imm16(w), 0x1_0000)]))
      && (op in {0x82, 0x83, 0xC1, 0x65} ==> Decode(w, addr) == Insn(Ri16, op, [RT(w)], [Imm16(w)]))
      && (op in {0x61, 0x41} ==> Decode(w, addr) == Insn(Ri16, op, [RT(w)], [Imm16(w) * 4 / 16 * 16]))
      && (op in {0x67, 0x47} ==>
            Decode(w, addr) == Insn(Ri16, op, [RT(w)], [(Signed(Imm16(w), 0x1_0000) * 4 + addr) % 0x4_0000 / 16 * 16]))
  {
    var op := w / 0x80_0000;
    if op in {0x81, 0x82, 0x83, 0xC1, 0x65, 0x61, 0x41, 0x67, 0x47} { Ri16Taken(w, addr); }
    hide FormatOf, Decode, Split, I16;
    SignsAgree(Imm16(w), 0x8000);
    assert Imm16(w) * 4 / 16 == Imm16(w) / 4;
  }

  /** ila, and the two hints, whose branch is nine bits split over the word and whose target
      is 16 bits from 0 or 18 bits from the instruction. */
  lemma WideImmediates(w: nat, addr: nat)
    requires w < TWO32
    ensures var op, wide := w / 0x200_0000, w / 0x80 % 0x4_0000;
      var branch := (Signed(w / 0x80_0000 % 4 * 128 + RT(w), 512) * 4 + addr) % 0x1_0000_0000;
      && (op == 0x21 ==> Decode(w, addr) == Insn(Ri18, op, [RT(w)], [wide]))
      && (op == 0x08 ==> Decode(w, addr) == Insn(Ri18, op, [], [branch, Imm16(w) * 4]))
      && (op == 0x09 ==> Decode(w, addr) == Insn(Ri18, op, [], [branch, (Signed(wide, 0x4_0000) * 4 + addr) % 0x4_0000]))
  {
    var op, wide := w / 0x200_0000, w / 0x80 % 0x4_0000;
    if op in {0x21, 0x08, 0x09} { Ri18Taken(w, addr); }
    hide FormatOf, Decode, Split, I18;
    WideParts(w);
    SignsAgree(w / 0x80_0000 % 4 * 128 + RT(w), 256);
    SignsAgree(wide, 0x2_0000);
  }

  lemma WideParts(w: nat)
    ensures w / 0x80 % 0x4_0000 / 0x1_0000 % 4 == w / 0x80_0000 % 4
    ensures w / 0x80 % 0x4_0000 % 0x1_0000 == w / 0x80 % 0x1_0000
  {
    Wide(w / 0x80);
    assert w / 0x80 / 0x1_0000 == w / 0x80_0000;
  }

  lemma Wide(x: nat)
    ensures x % 0x4_0000 / 0x1_0000 % 4 == x / 0x1_0000 % 4 && x % 0x4_0000 % 0x1_0000 == x % 0x1_0000
  {
    var q, s, t := x / 0x4_0000, x % 0x4_0000 / 0x1_0000, x % 0x4_0000 % 0x1_0000;
    assert x == 0x1_0000 * (4 * q + s) + t;
    Parted(4 * q + s, t);
    Fourth(q, s);
  }

  lemma Parted(a: nat, t: nat)
    requires t < 0x1_0000
    ensures (0x1_0000 * a + t) / 0x1_0000 == a && (0x1_0000 * a + t) % 0x1_0000 == t
  {
  }

  lemma Fourth(q: nat, s: nat)
    ensures (4 * q + s) % 4 == s % 4
  {
  }

  lemma Ri18Taken(w: nat, addr: nat)
    requires w < TWO32 && InTable(Ri18, w / 0x200_0000)
    ensures var p, op := Split(w), w / 0x200_0000;
      && p.t == RT(w) && I18(p) == w / 0x80 % 0x4_0000
      && Decode(w, addr) == Insn(Ri18, op, Operands(ShapeOf(Ri18, op), p, addr).0, Operands(ShapeOf(Ri18, op), p, addr).1)
  {
    FieldsAreParts(w);
    hide FormatOf, InTable, ShapeOf, Operands, Decode, Split, RT, I18;
    Nested(w);
    DecodedBy(w, addr, Ri18, w / 0x200_0000);
  }

  /** Two registers and a signed ten-bit immediate; lqd (0x34) and stqd (0x24) count
      quadwords. */
  lemma Ri10Operands(w: nat, addr: nat)
    requires w < TWO32 && InTable(Ri10, w / 0x100_0000)
    ensures var op, n := w / 0x100_0000, Signed(w / 0x4000 % 1024, 1024);
      Decode(w, addr) == Insn(Ri10, op, [RT(w), RA(w)], [if op in {0x34, 0x24} then n * 16 else n])
  {
    hide FormatOf, InTable, I10, Decode, Split, RT, RA, RB;
    Nested(w);
    Imm10(w);
    DecodedBy(w, addr, Ri10, w / 0x100_0000);
    SignsAgree(w / 0x4000 % 1024, 0x200);
  }

  /** rdch and rchcnt name the register first, wrch the channel. */
  lemma ChannelOperands(w: nat, addr: nat)
    requires w < TWO32
    ensures var op := w / 0x20_0000;
      && (op in {0x0D, 0x0F} ==> Decode(w, addr) == Insn(Channel, op, [RT(w), RA(w)], []))
      && (op == 0x10D ==> Decode(w, addr) == Insn(Channel, op, [RA(w), RT(w)], []))
  {
    hide FormatOf, Decode, Split, RT, RA, RB;
    if w / 0x20_0000 in {0x0D, 0x0F, 0x10D} { DecodedBy(w, addr, Channel, w / 0x20_0000); }
  }

  /** The conversions' eight-bit scale, and the shifts' seven-bit immediate, signed but for
      cbd, chd, cwd and cdd. */
  lemma ShortImmediates(w: nat, addr: nat)
    requires w < TWO32
    ensures 0x1D8 <= w / 0x40_0000 <= 0x1DB ==>
      Decode(w, addr) == Insn(Ri8, w / 0x40_0000, [RT(w), RA(w)], [w / 0x4000 % 256])
    ensures InTable(Ri7, w / 0x20_0000) ==>
      var op := w / 0x20_0000;
      Decode(w, addr) == Insn(Ri7, op, [RT(w), RA(w)], [if 0x1F4 <= op <= 0x1F7 then RB(w) else Signed(RB(w), 128)])
  {
    hide FormatOf, Decode, Split, I8, RT, RA, RB;
    Nested(w);
    if 0x1D8 <= w / 0x40_0000 <= 0x1DB {
      Imm10(w);
      DecodedBy(w, addr, Ri8, w / 0x40_0000);
    }
    if InTable(Ri7, w / 0x20_0000) { DecodedBy(w, addr, Ri7, w / 0x20_0000); }
    SignsAgree(RB(w), 64);
  }

  /** The shorter opcodes are the top bits of the longest. */
  lemma Nested(w: nat)
    ensures w / 0x20_0000 / 128 == w / 0x1000_0000 && w / 0x20_0000 / 16 == w / 0x200_0000
    ensures w / 0x20_0000 / 8 == w / 0x100_0000 && w / 0x20_0000 / 4 == w / 0x80_0000
    ensures w / 0x20_0000 / 2 == w / 0x40_0000
  {
  }

  lemma Imm10(w: nat)
    requires w < TWO32
    ensures I10(Split(w)) == w / 0x4000 % 1024 && I8(Split(w)) == w / 0x4000 % 256
  {
    hide I10, I8, Split;
    FieldsAreParts(w);
  }

  /** The eleven-bit opcodes: three registers but for bi, the two-register forms, hbr, stop,
      sync and the forms without operands. */
  lemma RrOperands(w: nat, addr: nat)
    requires w < TWO32 && InTable(Rr, w / 0x20_0000)
    ensures var op, x := w / 0x20_0000, Decode(w, addr);
      x == if op == 0x1A8 then Insn(Rr, op, [RA(w)], [])
           else if op in {0x1A9, 0x128, 0x129, 0x12A, 0x12B, 0x2A5, 0x2B4, 0x1B0, 0x1B1, 0x398, 0x1F0, 0x1B4, 0x1B6}
           then Insn(Rr, op, [RT(w), RA(w)], [])
           else if op == 0x1AC
           then Insn(Rr, op, [RA(w)], [(Signed(w / 0x4000 % 4 * 128 + RT(w), 512) * 4 + addr) % 0x1_0000_0000])
           else if op == 0x00 then Insn(Rr, op, [], [w % 0x4000])
           else if op == 0x02 then Insn(Rr, op, [], [w / 0x10_0000 % 2])
           else if op in {0x01, 0x03, 0x201} then Insn(Rr, op, [], [])
           else Insn(Rr, op, [RT(w), RA(w), RB(w)], [])
  {
    hide FormatOf, InTable, Decode, Split, RT, RA, RB;
    DecodedBy(w, addr, Rr, w / 0x20_0000);
    LowParts(w);
    SignsAgree(w / 0x4000 % 4 * 128 + RT(w), 256);
  }

  lemma LowParts(w: nat)
    requires w < TWO32
    ensures RB(w) % 4 == w / 0x4000 % 4 && RB(w) / 64 == w / 0x10_0000 % 2 && RA(w) * 128 + RT(w) == w % 0x4000
  {
    FieldsAreParts(w);
    HintParts(w);
  }

  lemma HintParts(w: nat)
    ensures w / 0x4000 % 128 % 4 == w / 0x4000 % 4
  {
  }
}
