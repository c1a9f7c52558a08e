/**
 The .debug_line reader: the header of a unit, the line-number program (DWARF version 2,
 section 6.2) and the lookup of an address in the finished table.

 A read past the data or a division by a zero line range ends a unit with ok == false,
 where the source raises an exception; the rows already yielded stay in the table.
 */
module DwarfLine {
  import opened Common
  import opened Bytes
  import opened Leb128

  /** A row of the table; an end marker has no file. */
  datatype Row = Row(addr: nat, file: Option<Bytes>, line: int)

  datatype Lined = Lined(rows: seq<Row>, ok: bool)

  datatype Header = Header(minInst: Byte, lineBase: int, lineRange: Byte, opcodeBase: Byte, stdLengths: Bytes,
                           dirs: seq<Bytes>, files: seq<(Bytes, nat)>, start: nat, end: nat)

  // ----- the header -------------------------------------------------------------------

  /** Zero-terminated names up to an empty one. */
  function ReadNames(d: Bytes, p: nat): (r: Option<(seq<Bytes>, nat)>)
    decreases |d| - p
  {
    if p >= |d| then None
    else if d[p] == 0 then Some(([], p + 1))
    else match FindZero(d, p)
         case None => None
         case Some(z) =>
           match ReadNames(d, z + 1)
           case None => None
           case Some(rest) => Some(([d[p..z]] + rest.0, rest.1))
  }

  /** A file's directory index; its time and size are read and dropped. */
  function ReadFileTail(d: Bytes, p: nat): (r: Option<(nat, nat)>)
    ensures r.Some? ==> p < r.value.1
  {
    match DecodeUleb(d, p)
    case None => None
    case Some(dir) =>
      match DecodeUleb(d, dir.1)
      case None => None
      case Some(time) =>
        match DecodeUleb(d, time.1)
        case None => None
        case Some(size) => Some((dir.0, size.1))
  }

  function ReadFiles(d: Bytes, p: nat): (r: Option<seq<(Bytes, nat)>>)
    decreases |d| - p
  {
    if p >= |d| then None
    else if d[p] == 0 then Some([])
    else match FindZero(d, p)
         case None => None
         case Some(z) =>
           match ReadFileTail(d, z + 1)
           case None => None
           case Some(tail) =>
             match ReadFiles(d, tail.1)
             case None => None
             case Some(rest) => Some([(d[p..z], tail.0)] + rest)
  }

  function Signed(b: Byte): int {
    if b < 128 then b else b as int - 256
  }

  function ReadHeader(d: Bytes, o: nat): Option<Header>
    requires o + 4 <= |d|
  {
    match (ReadBE(d, o + 4, 2), ReadBE(d, o + 6, 4))
    case (Some(version), Some(headerLen)) =>
      var q := if version >= 4 then o + 11 else o + 10;
      if q + 4 >= |d| then None
      else
        var names := q + 4 + d[q + 4];
        (match ReadNames(d, names)
         case None => None
         case Some(dirs) =>
           match ReadFiles(d, dirs.1)
           case None => None
           case Some(files) =>
             Some(Header(d[o + 10], Signed(d[q + 2]), d[q + 3], d[q + 4], Slice(d, q + 5, names), [[]] + dirs.0,
                         [([], 0)] + files, o + 10 + headerLen, o + 4 + BE(d[o..o + 4]))))
    case _ => None
  }

  function DecimalBytes(n: nat): Bytes {
    if n < 10 then [48 + n] else DecimalBytes(n / 10) + [48 + n % 10]
  }

  /** The path of a file: its name under its directory, unless the name is absolute. */
  function FilePath(h: Header, idx: nat): Bytes {
    if idx >= |h.files| then [60, 102, 105, 108, 101] + DecimalBytes(idx) + [62]
    else
      var (name, di) := h.files[idx];
      var dir := if di < |h.dirs| then h.dirs[di] else [];
      if dir != [] && (name == [] || (name[0] != 47 && name[0] != 92)) && 58 !in name then dir + [47] + name else name
  }

  // ----- the program ------------------------------------------------------------------

  datatype Regs = Regs(addr: nat, file: nat, line: int)

  const RESET := Regs(0, 1, 1)

  datatype Step = Fault | Next(p: nat, regs: Regs, rows: seq<Row>)

  function RealRow(h: Header, r: Regs): Row {
    Row(r.addr, Some(FilePath(h, r.file)), r.line)
  }

  /** The bytes a number of minimum-length instructions takes. */
  function Bump(h: Header, units: nat): nat {
    units * h.minInst
  }

  function Quotient(a: nat, b: nat): nat
    requires b > 0
  {
    a / b
  }

  function Special(h: Header, op: nat, r: Regs): Regs
    requires h.lineRange > 0 && op >= h.opcodeBase
  {
    var adj := op - h.opcodeBase;
    Regs(r.addr + Bump(h, Quotient(adj, h.lineRange)), r.file, r.line + h.lineBase + adj % h.lineRange)
  }

  /** An extended opcode: whatever its kind, its length says where the next one is. */
  function Extended(d: Bytes, p: nat, r: Regs): (s: Step)
    ensures s.Next? ==> p < s.p
  {
    match DecodeUleb(d, p)
    case None => Fault
    case Some(length) =>
      var q := length.1;
      if q >= |d| then Fault
      else if d[q] == 1 then Next(q + length.0, RESET, [Row(r.addr, None, 0)])
      else if d[q] == 2 then
        (match ReadBE(d, q + 1, 4)
         case None => Fault
         case Some(a) => Next(q + length.0, r.(addr := a), []))
      else Next(q + length.0, r, [])
  }

  function SkipUlebs(d: Bytes, p: nat, n: nat): (r: Option<nat>)
    ensures r.Some? ==> p <= r.value
    decreases n
  {
    if n == 0 then Some(p)
    else match DecodeUleb(d, p)
         case None => None
         case Some(v) => SkipUlebs(d, v.1, n - 1)
  }

  function Standard(d: Bytes, h: Header, op: nat, p: nat, r: Regs): (s: Step)
    requires 0 < op < h.opcodeBase
    ensures s.Next? ==> p <= s.p
  {
    if op == 1 then Next(p, r, [RealRow(h, r)])
    else if op == 2 then
      (match DecodeUleb(d, p)
       case None => Fault
       case Some(v) => Next(v.1, r.(addr := r.addr + Bump(h, v.0)), []))
    else if op == 3 then
      (match DecodeSleb(d, p)
       case None => Fault
       case Some(v) => Next(v.1, r.(line := r.line + v.0), []))
    else if op == 4 then
      (match DecodeUleb(d, p)
       case None => Fault
       case Some(v) => Next(v.1, r.(file := v.0), []))
    else if op == 5 then
      (match DecodeUleb(d, p)
       case None => Fault
       case Some(v) => Next(v.1, r, []))
    else if op == 8 then
      (if h.lineRange == 0 then Fault
       else Next(p, r.(addr := r.addr + Bump(h, Quotient(255 - h.opcodeBase, h.lineRange))), []))
    else if op == 9 then
      (match ReadBE(d, p, 2)
       case None => Fault
       case Some(v) => Next(p + 2, r.(addr := r.addr + v), []))
    else if op == 6 || op == 7 || op == 10 || op == 11 then Next(p, r, [])
    else if op > |h.stdLengths| then Fault
    else match SkipUlebs(d, p, h.stdLengths[op - 1])
         case None => Fault
         case Some(q) => Next(q, r, [])
  }

  /** The instruction at p. */
  function Fetch(d: Bytes, h: Header, p: nat, r: Regs): (s: Step)
    ensures s.Next? ==> p < s.p
  {
    if p >= |d| then Fault
    else if d[p] >= h.opcodeBase then
      if h.lineRange == 0 then Fault
      else
        var t := Special(h, d[p], r);
        Next(p + 1, t, [RealRow(h, t)])
    else if d[p] == 0 then Extended(d, p + 1, r)
    else Standard(d, h, d[p], p + 1, r)
  }

  function RunLines(d: Bytes, h: Header, p: nat, r: Regs): Lined
    decreases h.end - p
  {
    if p >= h.end then Lined([], true)
    else match Fetch(d, h, p, r)
         case Fault => Lined([], false)
         case Next(q, t, rows) =>
           var rest := RunLines(d, h, q, t);
           Lined(rows + rest.rows, rest.ok)
  }

  /** The rows of the unit at o; none when not even its length fits. */
  function UnitRows(d: Bytes, o: nat): Lined {
    if o + 4 > |d| then Lined([], true)
    else match ReadHeader(d, o)
         case None => Lined([], false)
         case Some(h) => RunLines(d, h, h.start, RESET)
  }

  // ----- the reader's loops --------------------------------------------------------------

  ghost function NamesAfter(got: seq<Bytes>, r: Option<(seq<Bytes>, nat)>): Option<(seq<Bytes>, nat)> {
    match r
    case None => None
    case Some(rest) => Some((got + rest.0, rest.1))
  }

  method Names(d: Bytes, start: nat) returns (r: Option<(seq<Bytes>, nat)>)
    ensures r == NamesAfter([[]], ReadNames(d, start))
  {
    var got: seq<Bytes> := [[]];
    var p := start;
    while p < |d|
      invariant NamesAfter(got, ReadNames(d, p)) == NamesAfter([[]], ReadNames(d, start))
      decreases |d| - p
    {
      if d[p] == 0 {
        assert got + [] == got;
        return Some((got, p + 1));
      }
      var z := FindZero(d, p);
      if z.None? { return None; }
      var rest := ReadNames(d, z.value + 1);
      if rest.Some? {
        assert got + ([d[p..z.value]] + rest.value.0) == got + [d[p..z.value]] + rest.value.0;
      }
      got := got + [d[p..z.value]];
      p := z.value + 1;
    }
    return None;
  }

  ghost function FilesAfter(got: seq<(Bytes, nat)>, r: Option<seq<(Bytes, nat)>>): Option<seq<(Bytes, nat)>> {
    match r
    case None => None
    case Some(rest) => Some(got + rest)
  }

  method FileTail(d: Bytes, p: nat) returns (r: Option<(nat, nat)>)
    ensures r == ReadFileTail(d, p)
  {
    var dir := Uleb(d, p);
    if dir.None? { return None; }
    var time := Uleb(d, dir.value.1);
    if time.None? { return None; }
    var size := Uleb(d, time.value.1);
    if size.None? { return None; }
    return Some((dir.value.0, size.value.1));
  }

  method Files(d: Bytes, start: nat) returns (r: Option<seq<(Bytes, nat)>>)
    ensures r == FilesAfter([([], 0)], ReadFiles(d, start))
  {
    hide ReadFileTail;
    var got: seq<(Bytes, nat)> := [([], 0)];
    var p := start;
    while p < |d|
      invariant FilesAfter(got, ReadFiles(d, p)) == FilesAfter([([], 0)], ReadFiles(d, start))
      decreases |d| - p
    {
      if d[p] == 0 {
        assert got + [] == got;
        return Some(got);
      }
      var z := FindZero(d, p);
      if z.None? { return None; }
      var tail := FileTail(d, z.value + 1);
      if tail.None? { return None; }
      var file := (d[p..z.value], tail.value.0);
      var rest := ReadFiles(d, tail.value.1);
      if rest.Some? { assert got + ([file] + rest.value) == got + [file] + rest.value; }
      got := got + [file];
      p := tail.value.1;
    }
    return None;
  }

  method SkipArgs(d: Bytes, start: nat, n: nat) returns (r: Option<nat>)
    ensures r == SkipUlebs(d, start, n)
  {
    var p := start;
    for k := 0 to n
      invariant SkipUlebs(d, p, n - k) == SkipUlebs(d, start, n)
    {
      var v := Uleb(d, p);
      if v.None? { return None; }
      p := v.value.1;
    }
    return Some(p);
  }

  lemma RowsJoin(got: seq<Row>, rows: seq<Row>, rest: seq<Row>)
    ensures got + rows + rest == got + (rows + rest)
    ensures got + [] == got
  {
  }

  /** The generator's loop over the program of a unit. */
  method ParseUnit(d: Bytes, o: nat) returns (rows: seq<Row>, ok: bool)
    ensures Lined(rows, ok) == UnitRows(d, o)
  {
    hide Fetch, ReadNames, ReadFiles, BE;
    rows, ok := [], true;
    if o + 4 > |d| { return; }
    var version, headerLen := ReadBE(d, o + 4, 2), ReadBE(d, o + 6, 4);
    if version.None? || headerLen.None? { return [], false; }
    var q := if version.value >= 4 then o + 11 else o + 10;
    if q + 4 >= |d| { return [], false; }
    var names := q + 4 + d[q + 4];
    var dirs := Names(d, names);
    if dirs.None? { return [], false; }
    var files := Files(d, dirs.value.1);
    if files.None? { return [], false; }
    var h := Header(d[o + 10], Signed(d[q + 2]), d[q + 3], d[q + 4], Slice(d, q + 5, names), dirs.value.0,
                    files.value, o + 10 + headerLen.value, o + 4 + BE(d[o..o + 4]));
    assert ReadHeader(d, o) == Some(h);
    rows, ok := RunProgram(d, h);
  }

  method RunProgram(d: Bytes, h: Header) returns (rows: seq<Row>, ok: bool)
    ensures Lined(rows, ok) == RunLines(d, h, h.start, RESET)
  {
    hide Fetch;
    rows, ok := [], true;
    var p, r := h.start, RESET;
    ghost var whole := RunLines(d, h, h.start, RESET);
    while p < h.end
      invariant var rest := RunLines(d, h, p, r);
        rows + rest.rows == whole.rows && rest.ok == whole.ok
      decreases h.end - p
    {
      var step := Execute(d, h, p, r);
      RowsJoin(rows, [], []);
      if step.Fault? { return rows, false; }
      RowsJoin(rows, step.rows, RunLines(d, h, step.p, step.regs).rows);
      p, r, rows := step.p, step.regs, rows + step.rows;
    }
    RowsJoin(rows, [], []);
  }

  /** One instruction, with its operands read by the number readers' loops. */
  method Execute(d: Bytes, h: Header, p: nat, r: Regs) returns (s: Step)
    ensures s == Fetch(d, h, p, r)
  {
    if p >= |d| { return Fault; }
    if d[p] > 11 && d[p] < h.opcodeBase {
      if d[p] > |h.stdLengths| { return Fault; }
      var q := SkipArgs(d, p + 1, h.stdLengths[d[p] - 1]);
      if q.None? { return Fault; }
      return Next(q.value, r, []);
    }
    return Fetch(d, h, p, r);
  }
}
