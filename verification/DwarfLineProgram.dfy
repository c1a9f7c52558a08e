/**
 The assembler of line-number programs (DWARF version 2, section 6.2.5) and a planner
 that picks the opcodes for any list of rows. The reader of DwarfLine gives back the
 rows of every program either of them writes.
 */
module DwarfLineProgram {
  import opened Common
  import opened Bytes
  import opened Leb128
  import opened DwarfLine

  datatype Op =
    | SpecialOp(op: Byte)
    | Copy
    | AdvancePc(n: nat)
    | AdvanceLine(delta: int)
    | SetFile(n: nat)
    | SetColumn(n: nat)
    | ConstAddPc
    | FixedAdvancePc(n: nat)
    | Flag(op: Byte)
    | Unknown(op: Byte, args: seq<nat>)
    | EndSequence
    | SetAddress(n: nat)
    | Vendor(sub: Byte, payload: Bytes)

  function EncodeUlebs(args: seq<nat>): Bytes {
    if args == [] then [] else EncodeUleb(args[0]) + EncodeUlebs(args[1..])
  }

  function Encode(op: Op): (s: Bytes)
    ensures |s| > 0
  {
    match op
    case SpecialOp(b) => [b]
    case Copy => [1]
    case AdvancePc(n) => [2] + EncodeUleb(n)
    case AdvanceLine(n) => [3] + EncodeSleb(n)
    case SetFile(n) => [4] + EncodeUleb(n)
    case SetColumn(n) => [5] + EncodeUleb(n)
    case ConstAddPc => [8]
    case FixedAdvancePc(n) => [9] + ToBE(n, 2)
    case Flag(b) => [b]
    case Unknown(b, args) => [b] + EncodeUlebs(args)
    case EndSequence => [0] + (EncodeUleb(1) + [1])
    case SetAddress(a) => [0] + (EncodeUleb(5) + ([2] + ToBE(a, 4)))
    case Vendor(sub, payload) => [0] + (EncodeUleb(1 + |payload|) + ([sub] + payload))
  }

  /** The opcode exists under this header and its operand fits its field. */
  ghost predicate Fits(h: Header, op: Op) {
    match op
    case SpecialOp(b) => b >= h.opcodeBase && h.lineRange > 0
    case Copy => 1 < h.opcodeBase
    case AdvancePc(_) => 2 < h.opcodeBase
    case AdvanceLine(_) => 3 < h.opcodeBase
    case SetFile(_) => 4 < h.opcodeBase
    case SetColumn(_) => 5 < h.opcodeBase
    case ConstAddPc => 8 < h.opcodeBase && h.lineRange > 0
    case FixedAdvancePc(n) => 9 < h.opcodeBase && n < Pow256(2)
    case Flag(b) => b < h.opcodeBase && (b == 6 || b == 7 || b == 10 || b == 11)
    case Unknown(b, args) => 11 < b < h.opcodeBase && b <= |h.stdLengths| && |args| == h.stdLengths[b - 1]
    case EndSequence => 0 < h.opcodeBase
    case SetAddress(a) => 0 < h.opcodeBase && a < Pow256(4)
    case Vendor(sub, _) => 0 < h.opcodeBase && sub != 1 && sub != 2
  }

  /** What an opcode does to the registers and the rows it adds (section 6.2.5). */
  function Perform(h: Header, op: Op, r: Regs): (Regs, seq<Row>) {
    match op
    case SpecialOp(b) =>
      if b >= h.opcodeBase && h.lineRange > 0 then
        var t := Special(h, b, r);
        (t, [RealRow(h, t)])
      else (r, [])
    case Copy => (r, [RealRow(h, r)])
    case AdvancePc(n) => (r.(addr := r.addr + Bump(h, n)), [])
    case AdvanceLine(n) => (r.(line := r.line + n), [])
    case SetFile(n) => (r.(file := n), [])
    case ConstAddPc =>
      if h.lineRange > 0 then (r.(addr := r.addr + Bump(h, Quotient(255 - h.opcodeBase, h.lineRange))), [])
      else (r, [])
    case FixedAdvancePc(n) => (r.(addr := r.addr + n), [])
    case EndSequence => (RESET, [Row(r.addr, None, 0)])
    case SetAddress(a) => (r.(addr := a), [])
    case _ => (r, [])
  }

  // ----- one opcode ----------------------------------------------------------------------

  lemma {:induction false} UlebsRoundTrip(d: Bytes, p: nat, args: seq<nat>)
    requires At(d, p, EncodeUlebs(args))
    ensures SkipUlebs(d, p, |args|) == Some(p + |EncodeUlebs(args)|)
    decreases |args|
  {
    hide EncodeUleb, DecodeUleb;
    if args != [] {
      AtSplit(d, p, EncodeUleb(args[0]), EncodeUlebs(args[1..]));
      UlebRoundTrip(d, p, args[0]);
      UlebsRoundTrip(d, p + |EncodeUleb(args[0])|, args[1..]);
    }
  }

  /** An opcode byte and its operands. */
  lemma OpcodeByte(d: Bytes, p: nat, b: Byte, rest: Bytes)
    requires At(d, p, [b] + rest)
    ensures p < |d| && d[p] == b && At(d, p + 1, rest)
  {
    AtHead(d, p, [b] + rest);
    assert ([b] + rest)[1..] == rest;
  }

  predicate IsExtended(op: Op) {
    op.EndSequence? || op.SetAddress? || op.Vendor?
  }

  function Operands(op: Op): Bytes
    requires !IsExtended(op)
  {
    match op
    case AdvancePc(n) => EncodeUleb(n)
    case AdvanceLine(n) => EncodeSleb(n)
    case SetFile(n) => EncodeUleb(n)
    case SetColumn(n) => EncodeUleb(n)
    case FixedAdvancePc(n) => ToBE(n, 2)
    case Unknown(b, args) => EncodeUlebs(args)
    case _ => []
  }

  lemma PlainOpRoundTrip(d: Bytes, h: Header, p: nat, op: Op, r: Regs)
    requires !IsExtended(op) && Fits(h, op) && At(d, p, Encode(op))
    ensures Fetch(d, h, p, r) == Next(p + |Encode(op)|, Perform(h, op, r).0, Perform(h, op, r).1)
  {
    hide Pow256, At, SkipUlebs, EncodeUleb, EncodeSleb, DecodeUleb, DecodeSleb, FilePath, Special, Bump, Quotient, ToBE, EncodeUlebs;
    assert Encode(op) == [Encode(op)[0]] + Operands(op);
    OpcodeByte(d, p, Encode(op)[0], Operands(op));
    match op
    case AdvancePc(n) => UlebRoundTrip(d, p + 1, n);
    case AdvanceLine(n) => SlebRoundTrip(d, p + 1, n);
    case SetFile(n) => UlebRoundTrip(d, p + 1, n);
    case SetColumn(n) => UlebRoundTrip(d, p + 1, n);
    case FixedAdvancePc(n) => ReadWritten(d, p + 1, n, 2);
    case Unknown(b, args) => UlebsRoundTrip(d, p + 1, args);
    case _ =>
  }

  function Payload(op: Op): Bytes
    requires IsExtended(op)
  {
    match op
    case EndSequence => []
    case SetAddress(a) => ToBE(a, 4)
    case Vendor(_, payload) => payload
  }

  function Sub(op: Op): Byte
    requires IsExtended(op)
  {
    match op
    case EndSequence => 1
    case SetAddress(_) => 2
    case Vendor(sub, _) => sub
  }

  /** The layout of an extended opcode: zero, its length, its kind and its operand. */
  lemma ExtendedLayout(d: Bytes, p: nat, op: Op) returns (q: nat)
    requires IsExtended(op) && At(d, p, Encode(op))
    ensures p < |d| && d[p] == 0 && DecodeUleb(d, p + 1) == Some((1 + |Payload(op)|, q))
    ensures q < |d| && d[q] == Sub(op) && At(d, q + 1, Payload(op)) && q + 1 + |Payload(op)| == p + |Encode(op)|
  {
    hide At, EncodeUleb, DecodeUleb, ToBE;
    var size, body := EncodeUleb(1 + |Payload(op)|), [Sub(op)] + Payload(op);
    assert Encode(op) == [0] + (size + body);
    OpcodeByte(d, p, 0, size + body);
    AtSplit(d, p + 1, size, body);
    UlebRoundTrip(d, p + 1, 1 + |Payload(op)|);
    q := p + 1 + |size|;
    OpcodeByte(d, q, Sub(op), Payload(op));
  }

  lemma ExtendedOpRoundTrip(d: Bytes, h: Header, p: nat, op: Op, r: Regs)
    requires IsExtended(op) && Fits(h, op) && At(d, p, Encode(op))
    ensures Fetch(d, h, p, r) == Next(p + |Encode(op)|, Perform(h, op, r).0, Perform(h, op, r).1)
  {
    hide At, Encode, DecodeUleb, ToBE, BE, FilePath, Standard, Special, Pow256;
    var q := ExtendedLayout(d, p, op);
    if op.SetAddress? { ReadWritten(d, q + 1, op.n, 4); }
  }

  /** Every opcode is fetched as itself. */
  lemma OpRoundTrip(d: Bytes, h: Header, p: nat, op: Op, r: Regs)
    requires Fits(h, op) && At(d, p, Encode(op))
    ensures Fetch(d, h, p, r) == Next(p + |Encode(op)|, Perform(h, op, r).0, Perform(h, op, r).1)
  {
    hide Encode, Perform, Fetch, Fits;
    if IsExtended(op) { ExtendedOpRoundTrip(d, h, p, op, r); } else { PlainOpRoundTrip(d, h, p, op, r); }
  }

  // ----- programs --------------------------------------------------------------------------

  function EncodeAll(ops: seq<Op>): Bytes {
    if ops == [] then [] else Encode(ops[0]) + EncodeAll(ops[1..])
  }

  ghost predicate AllFit(h: Header, ops: seq<Op>) {
    forall k :: 0 <= k < |ops| ==> Fits(h, ops[k])
  }

  function Exec(h: Header, ops: seq<Op>, r: Regs): (Regs, seq<Row>)
    decreases |ops|
  {
    if ops == [] then (r, [])
    else
      var (t, rows) := Perform(h, ops[0], r);
      var rest := Exec(h, ops[1..], t);
      (rest.0, rows + rest.1)
  }

  /** Decoding an assembled program runs it, whatever follows it in the section. */
  lemma {:induction false} ProgramRoundTrip(d: Bytes, h: Header, p: nat, ops: seq<Op>, r: Regs)
    requires AllFit(h, ops) && At(d, p, EncodeAll(ops)) && h.end == p + |EncodeAll(ops)|
    ensures RunLines(d, h, p, r) == Lined(Exec(h, ops, r).1, true)
    decreases |ops|
  {
    hide Encode, Perform, Fetch, Fits;
    if ops != [] {
      AtSplit(d, p, Encode(ops[0]), EncodeAll(ops[1..]));
      OpRoundTrip(d, h, p, ops[0], r);
      ProgramRoundTrip(d, h, p + |Encode(ops[0])|, ops[1..], Perform(h, ops[0], r).0);
    }
  }

  lemma {:induction false} ExecAppend(h: Header, a: seq<Op>, b: seq<Op>, r: Regs)
    ensures Exec(h, a + b, r) == (Exec(h, b, Exec(h, a, r).0).0, Exec(h, a, r).1 + Exec(h, b, Exec(h, a, r).0).1)
    decreases |a|
  {
    hide Perform;
    if a == [] {
      assert a + b == b;
      assert [] + Exec(h, b, r).1 == Exec(h, b, r).1;
    } else {
      assert (a + b)[1..] == a[1..] + b;
      var t := Perform(h, a[0], r);
      ExecAppend(h, a[1..], b, t.0);
      RowsJoin(t.1, Exec(h, a[1..], t.0).1, Exec(h, b, Exec(h, a, r).0).1);
    }
  }

  // ----- the planner -----------------------------------------------------------------------

  /** The rows of one sequence, and the address after its last instruction. */
  datatype Sequence = Sequence(rows: seq<Regs>, end: nat)

  function PlanAddress(h: Header, from: nat, to: nat): seq<Op>
    requires h.minInst > 0
  {
    if from == to then []
    else if from == 0 || to < from || (to - from) % h.minInst != 0 then [SetAddress(to)]
    else [AdvancePc(Quotient(to - from, h.minInst))]
  }

  /** The special opcode for a step, when one exists. */
  function SpecialFor(h: Header, r: Regs, to: Regs): Option<Byte>
    requires h.minInst > 0 && h.lineRange > 0
  {
    var t := to.line - r.line - h.lineBase;
    if to.file != r.file || to.addr < r.addr || (to.addr - r.addr) % h.minInst != 0 || t < 0 || t >= h.lineRange then None
    else
      var code: int := h.opcodeBase + t + h.lineRange * Quotient(to.addr - r.addr, h.minInst);
      if h.opcodeBase <= code < 256 then Some(code) else None
  }

  function PlanRow(h: Header, r: Regs, to: Regs): seq<Op>
    requires h.minInst > 0 && h.lineRange > 0
  {
    match SpecialFor(h, r, to)
    case Some(b) => [SpecialOp(b)]
    case None =>
      (if to.file != r.file then [SetFile(to.file)] else [])
      + (PlanAddress(h, r.addr, to.addr) + ((if to.line != r.line then [AdvanceLine(to.line - r.line)] else []) + [Copy]))
  }

  function PlanRows(h: Header, r: Regs, rows: seq<Regs>, end: nat): seq<Op>
    requires h.minInst > 0 && h.lineRange > 0
    decreases |rows|
  {
    if rows == [] then PlanAddress(h, r.addr, end) + [EndSequence]
    else PlanRow(h, r, rows[0]) + PlanRows(h, rows[0], rows[1..], end)
  }

  function Plan(h: Header, seqs: seq<Sequence>): seq<Op>
    requires h.minInst > 0 && h.lineRange > 0
  {
    if seqs == [] then [] else PlanRows(h, RESET, seqs[0].rows, seqs[0].end) + Plan(h, seqs[1..])
  }

  /** The rows a table of sequences should hold: each row with its path, and one end marker
      per sequence. */
  function Listed(h: Header, rows: seq<Regs>, end: nat): seq<Row> {
    if rows == [] then [Row(end, None, 0)] else [RealRow(h, rows[0])] + Listed(h, rows[1..], end)
  }

  function Table(h: Header, seqs: seq<Sequence>): seq<Row> {
    if seqs == [] then [] else Listed(h, seqs[0].rows, seqs[0].end) + Table(h, seqs[1..])
  }

  /** A header under which every row has a plan. */
  ghost predicate Usable(h: Header) {
    h.minInst > 0 && h.lineRange > 0 && h.opcodeBase >= 10
  }

  ghost predicate Addressable(rows: seq<Regs>, end: nat) {
    end < Pow256(4) && forall k :: 0 <= k < |rows| ==> rows[k].addr < Pow256(4)
  }

  lemma ExactQuotient(a: nat, b: nat)
    requires b > 0 && a % b == 0
    ensures Quotient(a, b) * b == a
  {
  }

  lemma {:induction false} QuotientOf(t: nat, u: nat, b: nat)
    requires t < b
    ensures (t + b * u) / b == u && (t + b * u) % b == t
    decreases u
  {
    if u > 0 {
      QuotientOf(t, u - 1, b);
      OneLess(t + b * (u - 1), b);
      assert t + b * u == t + b * (u - 1) + b;
    }
  }

  lemma OneLess(x: nat, b: nat)
    requires b > 0
    ensures (x + b) / b == x / b + 1 && (x + b) % b == x % b
  {
    var q, r := x / b, x % b;
    assert x == q * b + r;
    assert x + b == (q + 1) * b + r by { assert (q + 1) * b == q * b + b; }
    UniqueQuotient(x + b, b, q + 1, r);
  }

  /** A part that adds no rows only changes the registers. */
  lemma ExecQuiet(h: Header, a: seq<Op>, b: seq<Op>, r: Regs)
    requires Exec(h, a, r).1 == []
    ensures Exec(h, a + b, r) == Exec(h, b, Exec(h, a, r).0)
  {
    hide Exec;
    ExecAppend(h, a, b, r);
    var rest := Exec(h, b, Exec(h, a, r).0);
    assert [] + rest.1 == rest.1;
  }

  lemma AddressReached(h: Header, r: Regs, to: nat)
    requires Usable(h) && to < Pow256(4)
    ensures Exec(h, PlanAddress(h, r.addr, to), r) == (r.(addr := to), [])
    ensures AllFit(h, PlanAddress(h, r.addr, to))
  {
    var ops := PlanAddress(h, r.addr, to);
    if ops == [] {
      assert r == r.(addr := to);
    } else {
      assert ops == [ops[0]];
      ExecOne(h, ops[0], r);
      if ops[0].AdvancePc? { ExactQuotient(to - r.addr, h.minInst); }
    }
  }

  lemma SpecialReaches(h: Header, r: Regs, to: Regs)
    requires Usable(h) && SpecialFor(h, r, to).Some?
    ensures var b := SpecialFor(h, r, to).value; b >= h.opcodeBase && Special(h, b, r) == to
  {
    var t := to.line - r.line - h.lineBase;
    var u := Quotient(to.addr - r.addr, h.minInst);
    ExactQuotient(to.addr - r.addr, h.minInst);
    QuotientOf(t, u, h.lineRange);
  }

  lemma ExecOne(h: Header, op: Op, r: Regs)
    ensures Exec(h, [op], r) == Perform(h, op, r)
  {
    hide Perform;
    assert [op][1..] == [];
    RowsJoin(Perform(h, op, r).1, [], []);
  }

  lemma FitsAppend(h: Header, a: seq<Op>, b: seq<Op>)
    requires AllFit(h, a) && AllFit(h, b)
    ensures AllFit(h, a + b)
  {
  }

  /** The plan of a row yields exactly that row. */
  lemma RowPlanned(h: Header, r: Regs, to: Regs)
    requires Usable(h) && to.addr < Pow256(4)
    ensures Exec(h, PlanRow(h, r, to), r) == (to, [RealRow(h, to)])
    ensures AllFit(h, PlanRow(h, r, to))
  {
    hide FilePath, Special, Exec, PlanAddress, SpecialFor;
    match SpecialFor(h, r, to)
    case Some(b) =>
      SpecialReaches(h, r, to);
      ExecOne(h, SpecialOp(b), r);
    case None =>
      LongWay(h, r, to);
  }

  lemma MaybeOne(h: Header, needed: bool, op: Op, r: Regs)
    requires !needed ==> Perform(h, op, r) == (r, [])
    requires Perform(h, op, r).1 == []
    ensures Exec(h, if needed then [op] else [], r) == Perform(h, op, r)
  {
    if needed { ExecOne(h, op, r); }
  }

  lemma LongWay(h: Header, r: Regs, to: Regs)
    requires Usable(h) && to.addr < Pow256(4)
    ensures var files := if to.file != r.file then [SetFile(to.file)] else [];
            var lines := if to.line != r.line then [AdvanceLine(to.line - r.line)] else [];
            var ops := files + (PlanAddress(h, r.addr, to.addr) + (lines + [Copy]));
            Exec(h, ops, r) == (to, [RealRow(h, to)]) && AllFit(h, ops)
  {
    hide FilePath, Exec, PlanAddress;
    var files := if to.file != r.file then [SetFile(to.file)] else [];
    var addrs := PlanAddress(h, r.addr, to.addr);
    var lines := if to.line != r.line then [AdvanceLine(to.line - r.line)] else [];
    var r1 := r.(file := to.file);
    var r2 := r1.(addr := to.addr);
    MaybeOne(h, to.file != r.file, SetFile(to.file), r);
    AddressReached(h, r1, to.addr);
    MaybeOne(h, to.line != r.line, AdvanceLine(to.line - r.line), r2);
    ExecOne(h, Copy, to);
    ExecQuiet(h, lines, [Copy], r2);
    ExecQuiet(h, addrs, lines + [Copy], r1);
    ExecQuiet(h, files, addrs + (lines + [Copy]), r);
    assert AllFit(h, lines + [Copy]) && AllFit(h, files);
    FitsAppend(h, addrs, lines + [Copy]);
    FitsAppend(h, files, addrs + (lines + [Copy]));
  }

  lemma {:induction false} RowsPlanned(h: Header, r: Regs, rows: seq<Regs>, end: nat)
    requires Usable(h) && Addressable(rows, end)
    ensures Exec(h, PlanRows(h, r, rows, end), r) == (RESET, Listed(h, rows, end))
    ensures AllFit(h, PlanRows(h, r, rows, end))
    decreases |rows|
  {
    hide Exec, PlanRow, PlanAddress, RealRow;
    if rows == [] {
      var addrs := PlanAddress(h, r.addr, end);
      AddressReached(h, r, end);
      ExecOne(h, EndSequence, r.(addr := end));
      ExecQuiet(h, addrs, [EndSequence], r);
    } else {
      RowPlanned(h, r, rows[0]);
      assert Addressable(rows[1..], end);
      RowsPlanned(h, rows[0], rows[1..], end);
      ExecAppend(h, PlanRow(h, r, rows[0]), PlanRows(h, rows[0], rows[1..], end), r);
    }
  }

  ghost predicate AllAddressable(seqs: seq<Sequence>) {
    forall k :: 0 <= k < |seqs| ==> Addressable(seqs[k].rows, seqs[k].end)
  }

  /** Running the plan of any sequences yields exactly their rows and end markers. */
  lemma {:induction false} PlanIsExact(h: Header, seqs: seq<Sequence>)
    requires Usable(h) && AllAddressable(seqs)
    ensures Exec(h, Plan(h, seqs), RESET) == (RESET, Table(h, seqs)) && AllFit(h, Plan(h, seqs))
    decreases |seqs|
  {
    hide Exec, PlanRows, Listed;
    if seqs == [] {
      ExecNone(h);
    } else {
      var s := seqs[0];
      assert Addressable(s.rows, s.end) && AllAddressable(seqs[1..]);
      RowsPlanned(h, RESET, s.rows, s.end);
      PlanIsExact(h, seqs[1..]);
      ExecAppend(h, PlanRows(h, RESET, s.rows, s.end), Plan(h, seqs[1..]), RESET);
    }
  }

  lemma ExecNone(h: Header)
    ensures Exec(h, [], RESET) == (RESET, [])
  {
  }

  // ----- whole units -------------------------------------------------------------------------

  /** A unit to print: everything its header says. */
  datatype UnitSpec = UnitSpec(version: nat, minInst: Byte, isStmt: Byte, lineBase: int, lineRange: Byte,
                               stdLengths: Bytes, dirs: seq<Bytes>, files: seq<FileSpec>, padding: Bytes)

  datatype FileSpec = FileSpec(name: Bytes, dir: nat, time: nat, size: nat)

  ghost predicate NamePrintable(s: Bytes) {
    s != [] && NoZero(s)
  }

  ghost predicate SpecFits(x: UnitSpec) {
    && x.version < Pow256(2) && x.minInst > 0 && x.lineRange > 0 && -128 <= x.lineBase < 128
    && 9 <= |x.stdLengths| < 255
    && (forall k :: 0 <= k < |x.dirs| ==> NamePrintable(x.dirs[k]))
    && forall k :: 0 <= k < |x.files| ==> NamePrintable(x.files[k].name)
  }

  function PrintNames(names: seq<Bytes>): Bytes {
    if names == [] then [0] else names[0] + [0] + PrintNames(names[1..])
  }

  function PrintFileTail(f: FileSpec): Bytes {
    EncodeUleb(f.dir) + (EncodeUleb(f.time) + EncodeUleb(f.size))
  }

  function PrintFiles(files: seq<FileSpec>): Bytes {
    if files == [] then [0] else files[0].name + [0] + (PrintFileTail(files[0]) + PrintFiles(files[1..]))
  }

  function UnsignedByte(n: int): Byte
    requires -128 <= n < 128
  {
    if n < 0 then n + 256 else n
  }

  /** The fields after the header length. */
  function PrintBody(x: UnitSpec): Bytes
    requires -128 <= x.lineBase < 128 && |x.stdLengths| < 255
  {
    [x.minInst] + ((if x.version >= 4 then [1] else []) + PrintFields(x))
  }

  function PrintTables(x: UnitSpec): Bytes {
    x.stdLengths + (PrintNames(x.dirs) + (PrintFiles(x.files) + x.padding))
  }

  function PrintUnit(x: UnitSpec, program: Bytes): Bytes
    requires -128 <= x.lineBase < 128 && |x.stdLengths| < 255
  {
    var body := PrintBody(x);
    ToBE(6 + |body| + |program|, 4) + (ToBE(x.version, 2) + (ToBE(|body|, 4) + (body + program)))
  }

  function FileEntries(files: seq<FileSpec>): seq<(Bytes, nat)> {
    if files == [] then [] else [(files[0].name, files[0].dir)] + FileEntries(files[1..])
  }

  /** The header a reader should make of it at offset o. */
  function HeaderOf(x: UnitSpec, o: nat, size: nat): Header
    requires -128 <= x.lineBase < 128 && |x.stdLengths| < 255
  {
    Header(x.minInst, x.lineBase, x.lineRange, |x.stdLengths| + 1, x.stdLengths, [[]] + x.dirs,
           [([], 0)] + FileEntries(x.files), o + 10 + |PrintBody(x)|, o + 10 + |PrintBody(x)| + size)
  }

  lemma {:induction false} NamesRoundTrip(d: Bytes, p: nat, names: seq<Bytes>)
    requires At(d, p, PrintNames(names)) && forall k :: 0 <= k < |names| ==> NamePrintable(names[k])
    ensures ReadNames(d, p) == Some((names, p + |PrintNames(names)|))
    decreases |names|
  {
    hide FindZero;
    AtHead(d, p, PrintNames(names));
    if names != [] {
      var name, rest := names[0], PrintNames(names[1..]);
      assert NamePrintable(name);
      AtSplit(d, p, name + [0], rest);
      FindsTerminator(d, p, name);
      NamesRoundTrip(d, p + |name| + 1, names[1..]);
      assert [name] + names[1..] == names;
    }
  }

  lemma FileTailRoundTrip(d: Bytes, p: nat, f: FileSpec)
    requires At(d, p, PrintFileTail(f))
    ensures ReadFileTail(d, p) == Some((f.dir, p + |PrintFileTail(f)|))
  {
    hide EncodeUleb, DecodeUleb;
    var a, b, c := EncodeUleb(f.dir), EncodeUleb(f.time), EncodeUleb(f.size);
    AtSplit(d, p, a, b + c);
    AtSplit(d, p + |a|, b, c);
    UlebRoundTrip(d, p, f.dir);
    UlebRoundTrip(d, p + |a|, f.time);
    UlebRoundTrip(d, p + |a| + |b|, f.size);
  }

  lemma {:induction false} FilesRoundTrip(d: Bytes, p: nat, files: seq<FileSpec>)
    requires At(d, p, PrintFiles(files)) && forall k :: 0 <= k < |files| ==> NamePrintable(files[k].name)
    ensures ReadFiles(d, p) == Some(FileEntries(files))
    decreases |files|
  {
    hide FindZero, PrintFileTail, ReadFileTail;
    AtHead(d, p, PrintFiles(files));
    if files != [] {
      var f := files[0];
      var tail, rest := PrintFileTail(f), PrintFiles(files[1..]);
      assert NamePrintable(f.name);
      AtSplit(d, p, f.name + [0], tail + rest);
      var q := p + |f.name| + 1;
      AtSplit(d, q, tail, rest);
      FindsTerminator(d, p, f.name);
      FileTailRoundTrip(d, q, f);
      FilesRoundTrip(d, q + |tail|, files[1..]);
    }
  }

  lemma AtFour(d: Bytes, p: nat, a: Byte, b: Byte, c: Byte, e: Byte)
    requires At(d, p, [a, b, c, e])
    ensures p + 4 <= |d| && d[p] == a && d[p + 1] == b && d[p + 2] == c && d[p + 3] == e
  {
    var s := [a, b, c, e];
    assert d[p + 0] == s[0] && d[p + 1] == s[1] && d[p + 2] == s[2] && d[p + 3] == s[3];
  }

  lemma TablesRoundTrip(d: Bytes, at: nat, x: UnitSpec)
    requires SpecFits(x) && At(d, at, PrintTables(x))
    ensures var names := at + |x.stdLengths|;
      && names <= |d| && d[at..names] == x.stdLengths
      && ReadNames(d, names) == Some((x.dirs, names + |PrintNames(x.dirs)|))
      && ReadFiles(d, names + |PrintNames(x.dirs)|) == Some(FileEntries(x.files))
  {
    hide Pow256, NamePrintable, At, PrintNames, PrintFiles, ReadNames, ReadFiles;
    var names, files := PrintNames(x.dirs), PrintFiles(x.files);
    AtSplit(d, at, x.stdLengths, names + (files + x.padding));
    AtSlice(d, at, x.stdLengths);
    AtSplit(d, at + |x.stdLengths|, names, files + x.padding);
    AtSplit(d, at + |x.stdLengths| + |names|, files, x.padding);
    NamesRoundTrip(d, at + |x.stdLengths|, x.dirs);
    FilesRoundTrip(d, at + |x.stdLengths| + |names|, x.files);
  }

  /** The four fixed bytes and the tables after them. */
  function PrintFields(x: UnitSpec): Bytes
    requires -128 <= x.lineBase < 128 && |x.stdLengths| < 255
  {
    PrintFixed(x) + PrintTables(x)
  }

  function PrintFixed(x: UnitSpec): (s: Bytes)
    requires -128 <= x.lineBase < 128 && |x.stdLengths| < 255
    ensures |s| == 4
  {
    [x.isStmt, UnsignedByte(x.lineBase), x.lineRange, |x.stdLengths| + 1]
  }

  lemma FixedRoundTrip(d: Bytes, q: nat, x: UnitSpec)
    requires -128 <= x.lineBase < 128 && |x.stdLengths| < 255 && At(d, q, PrintFixed(x))
    ensures q + 4 <= |d| && Signed(d[q + 1]) == x.lineBase && d[q + 2] == x.lineRange
    ensures d[q + 3] == |x.stdLengths| + 1
  {
    AtFour(d, q, x.isStmt, UnsignedByte(x.lineBase), x.lineRange, |x.stdLengths| + 1);
  }

  lemma FieldsRoundTrip(d: Bytes, q: nat, x: UnitSpec)
    requires SpecFits(x) && At(d, q, PrintFields(x))
    ensures var names := q + 4 + |x.stdLengths|;
      && names <= |d| && Signed(d[q + 1]) == x.lineBase && d[q + 2] == x.lineRange
      && d[q + 3] == |x.stdLengths| + 1 && d[q + 4..names] == x.stdLengths
      && ReadNames(d, names) == Some((x.dirs, names + |PrintNames(x.dirs)|))
      && ReadFiles(d, names + |PrintNames(x.dirs)|) == Some(FileEntries(x.files))
  {
    hide Pow256, NamePrintable, At, PrintTables, PrintFixed, ReadNames, ReadFiles, PrintNames, FileEntries;
    AtSplit(d, q, PrintFixed(x), PrintTables(x));
    FixedRoundTrip(d, q, x);
    TablesRoundTrip(d, q + 4, x);
  }

  lemma BodyRoundTrip(d: Bytes, p: nat, x: UnitSpec)
    requires SpecFits(x) && At(d, p, PrintBody(x))
    ensures p < |d| && d[p] == x.minInst
    ensures At(d, if x.version >= 4 then p + 2 else p + 1, PrintFields(x))
  {
    hide Pow256, NamePrintable, At, PrintFields;
    var ops: Bytes := if x.version >= 4 then [1] else [];
    OpcodeByte(d, p, x.minInst, ops + PrintFields(x));
    AtSplit(d, p + 1, ops, PrintFields(x));
  }

  lemma HeaderRoundTrip(d: Bytes, o: nat, x: UnitSpec, program: Bytes)
    requires SpecFits(x) && At(d, o, PrintUnit(x, program)) && 6 + |PrintBody(x)| + |program| < Pow256(4)
    ensures o + 4 <= |d| && ReadHeader(d, o) == Some(HeaderOf(x, o, |program|))
    ensures At(d, o + 10 + |PrintBody(x)|, program)
  {
    hide Pow256, NamePrintable, At, PrintBody, PrintNames, ReadNames, ReadFiles, Signed, Slice;
    var body := PrintBody(x);
    var total, version, size := ToBE(6 + |body| + |program|, 4), ToBE(x.version, 2), ToBE(|body|, 4);
    AtSplit(d, o, total, version + (size + (body + program)));
    AtSplit(d, o + 4, version, size + (body + program));
    AtSplit(d, o + 6, size, body + program);
    AtSplit(d, o + 10, body, program);
    ReadWritten(d, o, 6 + |body| + |program|, 4);
    ReadWritten(d, o + 4, x.version, 2);
    ReadWritten(d, o + 6, |body|, 4);
    BodyRoundTrip(d, o + 10, x);
    FieldsRoundTrip(d, if x.version >= 4 then o + 12 else o + 11, x);
  }

  // ----- the files of the rows ----------------------------------------------------------------

  /** The number that decimal digits stand for, if they are digits. */
  function ReadDigits(s: Bytes): Option<nat> {
    if s == [] then Some(0)
    else match ReadDigits(s[..|s| - 1])
         case None => None
         case Some(n) => if 48 <= s[|s| - 1] < 58 then Some(10 * n + s[|s| - 1] - 48) else None
  }

  lemma {:induction false} DigitsRead(n: nat)
    ensures DecimalBytes(n) != [] && ReadDigits(DecimalBytes(n)) == Some(n)
    ensures n > 0 ==> DecimalBytes(n)[0] != 48
    decreases n
  {
    var s := DecimalBytes(n);
    if n >= 10 {
      DigitsRead(n / 10);
      assert s[..|s| - 1] == DecimalBytes(n / 10);
    } else {
      assert s[..0] == [];
    }
  }

  /** The name stands for itself under any directory: it is absolute or names a drive. */
  predicate StandsAlone(name: Bytes) {
    58 in name || (name != [] && (name[0] == 47 || name[0] == 92))
  }

  /** The directory a file of the unit is in; the first one listed has index 1. */
  function DirectoryOf(x: UnitSpec, f: FileSpec): Bytes {
    if 1 <= f.dir <= |x.dirs| then x.dirs[f.dir - 1] else []
  }

  /** The path shown for a file index: the listed file's name, behind its directory and a
      slash if it has one and does not stand alone; or a made-up name with the index. */
  ghost predicate PathIs(x: UnitSpec, idx: nat, path: Bytes) {
    if idx > |x.files| then
      && |path| > 6 && path[..5] == [60, 102, 105, 108, 101] && path[|path| - 1] == 62
      && ReadDigits(path[5..|path| - 1]) == Some(idx) && path[5] != 48
    else if idx == 0 then path == []
    else
      var f := x.files[idx - 1];
      var dir := DirectoryOf(x, f);
      if dir == [] || StandsAlone(f.name) then path == f.name
      else |path| == |dir| + 1 + |f.name| && path[..|dir|] == dir && path[|dir|] == 47 && path[|dir| + 1..] == f.name
  }

  lemma {:induction false} EntryOfFile(files: seq<FileSpec>, k: nat)
    requires k < |files|
    ensures |FileEntries(files)| == |files| && FileEntries(files)[k] == (files[k].name, files[k].dir)
    decreases |files|
  {
    if k > 0 { EntryOfFile(files[1..], k - 1); } else { EntriesCount(files); }
  }

  lemma {:induction false} EntriesCount(files: seq<FileSpec>)
    ensures |FileEntries(files)| == |files|
    decreases |files|
  {
    if files != [] { EntriesCount(files[1..]); }
  }

  lemma MadeUpPath(idx: nat, path: Bytes)
    requires idx > 0 && path == [60, 102, 105, 108, 101] + DecimalBytes(idx) + [62]
    ensures |path| > 6 && path[..5] == [60, 102, 105, 108, 101] && path[|path| - 1] == 62
    ensures ReadDigits(path[5..|path| - 1]) == Some(idx) && path[5] != 48
  {
    hide DecimalBytes, ReadDigits;
    DigitsRead(idx);
    assert path[5..|path| - 1] == DecimalBytes(idx);
    assert path[5] == DecimalBytes(idx)[0];
  }

  /** The reader's paths are those of the printed directories and files. */
  lemma PathsAreShown(x: UnitSpec, o: nat, size: nat, idx: nat)
    requires -128 <= x.lineBase < 128 && |x.stdLengths| < 255
    ensures PathIs(x, idx, FilePath(HeaderOf(x, o, size), idx))
  {
    hide DecimalBytes, ReadDigits, PrintBody, FileEntries;
    var h := HeaderOf(x, o, size);
    EntriesCount(x.files);
    if idx > |x.files| {
      MadeUpPath(idx, FilePath(h, idx));
    } else if idx > 0 {
      EntryOfFile(x.files, idx - 1);
      var f := x.files[idx - 1];
      assert h.files[idx] == (f.name, f.dir);
      assert (if f.dir < |h.dirs| then h.dirs[f.dir] else []) == DirectoryOf(x, f);
    }
  }

  /** A row shows the address, file and line wanted. */
  ghost predicate Shows(x: UnitSpec, row: Row, want: Regs) {
    row.addr == want.addr && row.line == want.line && row.file.Some? && PathIs(x, want.file, row.file.value)
  }

  /** The rows of a sequence in order, then its end marker. */
  ghost predicate ShowsSequence(x: UnitSpec, rows: seq<Row>, s: Sequence) {
    && |rows| == |s.rows| + 1 && rows[|s.rows|] == Row(s.end, None, 0)
    && forall k :: 0 <= k < |s.rows| ==> Shows(x, rows[k], s.rows[k])
  }

  ghost predicate ShowsAll(x: UnitSpec, rows: seq<Row>, seqs: seq<Sequence>)
    decreases |seqs|
  {
    if seqs == [] then rows == []
    else
      var n := |seqs[0].rows| + 1;
      n <= |rows| && ShowsSequence(x, rows[..n], seqs[0]) && ShowsAll(x, rows[n..], seqs[1..])
  }

  lemma {:induction false} ListedShows(x: UnitSpec, o: nat, rows: seq<Regs>, end: nat)
    requires -128 <= x.lineBase < 128 && |x.stdLengths| < 255
    ensures ShowsSequence(x, Listed(HeaderOf(x, o, 0), rows, end), Sequence(rows, end))
    decreases |rows|
  {
    hide PathIs, FilePath, HeaderOf;
    if rows != [] {
      PathsAreShown(x, o, 0, rows[0].file);
      ListedShows(x, o, rows[1..], end);
    }
  }

  lemma {:induction false} TableShows(x: UnitSpec, o: nat, seqs: seq<Sequence>)
    requires -128 <= x.lineBase < 128 && |x.stdLengths| < 255
    ensures ShowsAll(x, Table(HeaderOf(x, o, 0), seqs), seqs)
    decreases |seqs|
  {
    hide ShowsSequence, Listed, HeaderOf;
    if seqs != [] {
      var first, rest := Listed(HeaderOf(x, o, 0), seqs[0].rows, seqs[0].end), Table(HeaderOf(x, o, 0), seqs[1..]);
      ListedShows(x, o, seqs[0].rows, seqs[0].end);
      assert |first| == |seqs[0].rows| + 1 by { SequenceSize(x, first, Sequence(seqs[0].rows, seqs[0].end)); }
      TableShows(x, o, seqs[1..]);
      assert (first + rest)[..|first|] == first && (first + rest)[|first|..] == rest;
      assert seqs[0] == Sequence(seqs[0].rows, seqs[0].end);
    }
  }

  lemma SequenceSize(x: UnitSpec, rows: seq<Row>, s: Sequence)
    requires ShowsSequence(x, rows, s)
    ensures |rows| == |s.rows| + 1
  {
  }

  /** Adding the constant advances the address as special opcode 255 does (section 6.2.5). */
  lemma ConstantIsSpecial255(h: Header, r: Regs)
    requires h.lineRange > 0
    ensures Perform(h, ConstAddPc, r) == (r.(addr := Special(h, 255, r).addr), [])
  {
  }

  lemma UnitReads(d: Bytes, o: nat, x: UnitSpec, seqs: seq<Sequence>)
    requires SpecFits(x) && AllAddressable(seqs)
    requires var h := HeaderOf(x, o, 0);
      && 6 + |PrintBody(x)| + |EncodeAll(Plan(h, seqs))| < Pow256(4)
      && At(d, o, PrintUnit(x, EncodeAll(Plan(h, seqs))))
    ensures UnitRows(d, o) == Lined(Table(HeaderOf(x, o, 0), seqs), true)
  {
    hide At, PrintBody, EncodeAll, Exec, FilePath, ReadHeader, RunLines;
    var h0 := HeaderOf(x, o, 0);
    var ops := Plan(h0, seqs);
    var program := EncodeAll(ops);
    var h := HeaderOf(x, o, |program|);
    HeaderRoundTrip(d, o, x, program);
    PlanIsExact(h0, seqs);
    EndDoesNotMatter(h0, h, ops, RESET);
    ProgramRoundTrip(d, h, h.start, ops, RESET);
  }

  /** A printed unit holding the plan of any sequences is read as exactly their table,
      whatever stands before and after it in the section: each row shows the address, the
      line and the path wanted. */
  lemma UnitRoundTrip(d: Bytes, o: nat, x: UnitSpec, seqs: seq<Sequence>)
    requires SpecFits(x) && AllAddressable(seqs)
    requires var h := HeaderOf(x, o, 0);
      && 6 + |PrintBody(x)| + |EncodeAll(Plan(h, seqs))| < Pow256(4)
      && At(d, o, PrintUnit(x, EncodeAll(Plan(h, seqs))))
    ensures UnitRows(d, o) == Lined(Table(HeaderOf(x, o, 0), seqs), true)
    ensures ShowsAll(x, UnitRows(d, o).rows, seqs)
  {
    hide At, PrintBody, EncodeAll, ShowsAll, UnitRows, HeaderOf, Plan, Table;
    UnitReads(d, o, x, seqs);
    TableShows(x, o, seqs);
  }

  /** What a program does depends on everything in the header but where the program ends. */
  lemma {:induction false} EndDoesNotMatter(a: Header, b: Header, ops: seq<Op>, r: Regs)
    requires a.(end := b.end) == b
    ensures Exec(a, ops, r) == Exec(b, ops, r) && (AllFit(a, ops) ==> AllFit(b, ops))
    decreases |ops|
  {
    hide FilePath;
    forall op ensures Perform(a, op, r) == Perform(b, op, r) {
      PathsDoNotMatter(a, b, op, r);
    }
    if ops != [] { EndDoesNotMatter(a, b, ops[1..], Perform(a, ops[0], r).0); }
    if AllFit(a, ops) {
      forall k | 0 <= k < |ops| ensures Fits(b, ops[k]) {
        assert Fits(a, ops[k]);
      }
    }
  }

  lemma PathsDoNotMatter(a: Header, b: Header, op: Op, r: Regs)
    requires a.(end := b.end) == b
    ensures Perform(a, op, r) == Perform(b, op, r)
  {
    hide DecimalBytes, Quotient;
    forall idx ensures FilePath(a, idx) == FilePath(b, idx) {}
  }
}
