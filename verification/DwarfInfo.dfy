/**
 The .debug_info reader: abbreviation tables, attribute forms and the walk over the
 entries of every unit, which yields them in order with their depths.

 A reading that runs off the data, meets an unknown form or an unknown code gives no
 value, where the source raises an exception; what was yielded before it stays yielded.
 */
module DwarfInfo {
  import opened Common
  import opened Bytes
  import opened Leb128

  datatype Abbrev = Abbrev(tag: nat, hasChildren: Byte, attrs: seq<(nat, nat)>)

  type Table = map<nat, Abbrev>

  datatype Value = Num(n: int) | Str(s: Bytes) | Block(b: Bytes)

  datatype Die = Die(offset: nat, tag: nat, vals: map<nat, Value>, depth: int)

  // ----- abbreviations ---------------------------------------------------------

  /** Attribute and form pairs up to a pair of zeros. */
  function ReadAttrs(d: Bytes, o: nat): (r: Option<(seq<(nat, nat)>, nat)>)
    ensures r.Some? ==> o < r.value.1 <= |d|
    decreases |d| - o
  {
    match DecodeUleb(d, o)
    case None => None
    case Some(at) =>
      match DecodeUleb(d, at.1)
      case None => None
      case Some(fm) =>
        if at.0 == 0 && fm.0 == 0 then Some(([], fm.1))
        else match ReadAttrs(d, fm.1)
             case None => None
             case Some(rest) => Some(([(at.0, fm.0)] + rest.0, rest.1))
  }

  /** One abbreviation after its code. */
  function ReadAbbrev(d: Bytes, o: nat): (r: Option<(Abbrev, nat)>)
    ensures r.Some? ==> o < r.value.1 <= |d|
  {
    match DecodeUleb(d, o)
    case None => None
    case Some(tag) =>
      if tag.1 >= |d| then None
      else match ReadAttrs(d, tag.1 + 1)
           case None => None
           case Some(attrs) => Some((Abbrev(tag.0, d[tag.1], attrs.0), attrs.1))
  }

  /** The table at offset o, up to a zero code or the end of the section. */
  function ReadTable(d: Bytes, o: nat, table: Table): Option<Table>
    decreases |d| - o
  {
    if o >= |d| then Some(table)
    else match DecodeUleb(d, o)
         case None => None
         case Some(code) =>
           if code.0 == 0 then Some(table)
           else match ReadAbbrev(d, code.1)
                case None => None
                case Some(entry) => ReadTable(d, entry.1, table[code.0 := entry.0])
  }

  method ParseAbbrev(d: Bytes, off: nat) returns (table: Option<Table>)
    ensures table == ReadTable(d, off, map[])
  {
    var t: Table := map[];
    var o := off;
    while o < |d|
      invariant ReadTable(d, o, t) == ReadTable(d, off, map[])
      decreases |d| - o
    {
      var code := Uleb(d, o);
      if code.None? { return None; }
      if code.value.0 == 0 { break; }
      var tag := Uleb(d, code.value.1);
      if tag.None? || tag.value.1 >= |d| { return None; }
      var attrs := ParseAttrs(d, tag.value.1 + 1);
      if attrs.None? { return None; }
      t := t[code.value.0 := Abbrev(tag.value.0, d[tag.value.1], attrs.value.0)];
      o := attrs.value.1;
    }
    return Some(t);
  }

  ghost function AttrsAfter(attrs: seq<(nat, nat)>, r: Option<(seq<(nat, nat)>, nat)>): Option<(seq<(nat, nat)>, nat)> {
    match r
    case None => None
    case Some(rest) => Some((attrs + rest.0, rest.1))
  }

  method ParseAttrs(d: Bytes, off: nat) returns (r: Option<(seq<(nat, nat)>, nat)>)
    ensures r == ReadAttrs(d, off)
  {
    var attrs: seq<(nat, nat)> := [];
    var o := off;
    assert AttrsAfter([], ReadAttrs(d, off)) == ReadAttrs(d, off) by {
      if ReadAttrs(d, off).Some? { assert [] + ReadAttrs(d, off).value.0 == ReadAttrs(d, off).value.0; }
    }
    while true
      invariant AttrsAfter(attrs, ReadAttrs(d, o)) == ReadAttrs(d, off)
      decreases |d| - o
    {
      var at := Uleb(d, o);
      if at.None? { return None; }
      var fm := Uleb(d, at.value.1);
      if fm.None? { return None; }
      if at.value.0 == 0 && fm.value.0 == 0 {
        assert attrs + [] == attrs;
        return Some((attrs, fm.value.1));
      }
      var rest := ReadAttrs(d, fm.value.1);
      if rest.Some? {
        assert attrs + ([(at.value.0, fm.value.0)] + rest.value.0) == attrs + [(at.value.0, fm.value.0)] + rest.value.0;
      }
      attrs := attrs + [(at.value.0, fm.value.0)];
      o := fm.value.1;
    }
  }

  // ----- forms -----------------------------------------------------------------

  function FixedNum(d: Bytes, o: nat, width: nat, add: nat): (r: Option<(Value, nat)>)
    ensures r.Some? ==> o <= r.value.1
  {
    match ReadBE(d, o, width)
    case None => None
    case Some(n) => Some((Num(n + add), o + width))
  }

  function FixedBlock(d: Bytes, o: nat, width: nat): (r: Option<(Value, nat)>)
    ensures r.Some? ==> o <= r.value.1
  {
    match ReadBE(d, o, width)
    case None => None
    case Some(n) => Some((Block(Slice(d, o + width, o + width + n)), o + width + n))
  }

  /** A string that is not terminated in .debug_str loses its last byte, as the source's
      search result of -1 makes it. */
  function StringAt(dstr: Bytes, o: nat): Bytes {
    match FindZero(dstr, o)
    case Some(z) => dstr[o..z]
    case None => if |dstr| > 0 then Slice(dstr, o, |dstr| - 1) else []
  }

  function ReadForm(d: Bytes, dstr: Bytes, o: nat, form: nat, addrSize: nat, cuBase: nat): (r: Option<(Value, nat)>)
    ensures r.Some? ==> o <= r.value.1
  {
    if form == 0x01 then
      (match ReadBE(d, o, if addrSize == 4 then 4 else 8)
       case None => None
       case Some(n) => Some((Num(n), o + addrSize)))
    else if form == 0x0b || form == 0x0c then FixedNum(d, o, 1, 0)
    else if form == 0x05 then FixedNum(d, o, 2, 0)
    else if form == 0x06 || form == 0x10 then FixedNum(d, o, 4, 0)
    else if form == 0x07 then FixedNum(d, o, 8, 0)
    else if form == 0x08 then
      (match FindZero(d, o)
       case None => None
       case Some(z) => Some((Str(d[o..z]), z + 1)))
    else if form == 0x0e then
      (match ReadBE(d, o, 4)
       case None => None
       case Some(so) => Some((Str(StringAt(dstr, so)), o + 4)))
    else if form == 0x0f then
      (match DecodeUleb(d, o)
       case None => None
       case Some(v) => Some((Num(v.0), v.1)))
    else if form == 0x0d then
      (match DecodeSleb(d, o)
       case None => None
       case Some(v) => Some((Num(v.0), v.1)))
    else if form == 0x11 then FixedNum(d, o, 1, cuBase)
    else if form == 0x12 then FixedNum(d, o, 2, cuBase)
    else if form == 0x13 then FixedNum(d, o, 4, cuBase)
    else if form == 0x14 then FixedNum(d, o, 8, cuBase)
    else if form == 0x15 then
      (match DecodeUleb(d, o)
       case None => None
       case Some(v) => Some((Num(v.0 + cuBase), v.1)))
    else if form == 0x0a then FixedBlock(d, o, 1)
    else if form == 0x03 then FixedBlock(d, o, 2)
    else if form == 0x04 then FixedBlock(d, o, 4)
    else if form == 0x09 then
      (match DecodeUleb(d, o)
       case None => None
       case Some(n) => Some((Block(Slice(d, n.1, n.1 + n.0)), n.1 + n.0)))
    else None
  }

  /** The attribute values of one entry; a repeated attribute keeps its last value. */
  function ReadValues(d: Bytes, dstr: Bytes, p: nat, attrs: seq<(nat, nat)>, addrSize: nat, cuBase: nat,
                      vals: map<nat, Value>): (r: Option<(map<nat, Value>, nat)>)
    ensures r.Some? ==> p <= r.value.1
    decreases |attrs|
  {
    if attrs == [] then Some((vals, p))
    else match ReadForm(d, dstr, p, attrs[0].1, addrSize, cuBase)
         case None => None
         case Some(v) =>
           ReadValues(d, dstr, v.1, attrs[1..], addrSize, cuBase, vals[attrs[0].0 := v.0])
  }

  // ----- the walk --------------------------------------------------------------

  datatype Walked = Walked(dies: seq<Die>, ok: bool)

  datatype Unit = Unit(table: Table, addrSize: nat, base: nat, end: nat)

  /** What stands at one point of a unit: a null entry, an entry, or nothing readable. */
  datatype Found = Bad | Null(next: nat) | Entry(die: Die, next: nat, down: bool)

  function ReadDie(info: Bytes, dstr: Bytes, u: Unit, p: nat, depth: int): (r: Found)
    ensures !r.Bad? ==> p < r.next
  {
    match DecodeUleb(info, p)
    case None => Bad
    case Some(code) =>
      if code.0 == 0 then Null(code.1)
      else if code.0 !in u.table then Bad
      else
        var entry := u.table[code.0];
        match ReadValues(info, dstr, code.1, entry.attrs, u.addrSize, u.base, map[])
        case None => Bad
        case Some(vals) => Entry(Die(p, entry.tag, vals.0, depth), vals.1, entry.hasChildren != 0)
  }

  function WalkUnit(info: Bytes, dstr: Bytes, u: Unit, p: nat, depth: int): Walked
    decreases u.end - p
  {
    if p >= u.end then Walked([], true)
    else match ReadDie(info, dstr, u, p, depth)
         case Bad => Walked([], false)
         case Null(next) => WalkUnit(info, dstr, u, next, depth - 1)
         case Entry(die, next, down) =>
           var rest := WalkUnit(info, dstr, u, next, if down then depth + 1 else depth);
           Walked([die] + rest.dies, rest.ok)
  }

  /** The unit header at offset o: its length, table offset and address size. */
  function ReadHeader(info: Bytes, abbrev: Bytes, o: nat): (u: Option<Unit>)
    ensures u.Some? ==> o + 4 <= u.value.end && o + 10 < |info|
  {
    match ReadBE(info, o, 4)
    case None => None
    case Some(length) =>
      match ReadBE(info, o + 6, 4)
      case None => None
      case Some(abbrOff) =>
        if o + 10 >= |info| then None
        else match ReadTable(abbrev, abbrOff, map[])
             case None => None
             case Some(table) => Some(Unit(table, info[o + 10], o, o + 4 + length))
  }

  function WalkAll(info: Bytes, abbrev: Bytes, dstr: Bytes, o: nat): Walked
    decreases |info| - o
  {
    if o >= |info| then Walked([], true)
    else match ReadHeader(info, abbrev, o)
         case None => Walked([], false)
         case Some(u) =>
           var here := WalkUnit(info, dstr, u, o + 11, 0);
           if !here.ok then here
           else
             var rest := WalkAll(info, abbrev, dstr, u.end);
             Walked(here.dies + rest.dies, rest.ok)
  }

  /** What was yielded before a point of the walk, and what the rest yields. */
  ghost function Then(dies: seq<Die>, rest: Walked): Walked {
    Walked(dies + rest.dies, rest.ok)
  }

  lemma ThenMore(dies: seq<Die>, more: seq<Die>, rest: Walked)
    ensures Then(dies, Then(more, rest)) == Then(dies + more, rest)
  {
    assert dies + (more + rest.dies) == dies + more + rest.dies;
  }

  lemma ThenNothing(dies: seq<Die>, rest: Walked)
    ensures Then([], rest) == rest
    ensures rest.dies == [] ==> Then(dies, rest) == Walked(dies, rest.ok)
  {
    assert [] + rest.dies == rest.dies;
    assert dies + [] == dies;
  }

  /** The generator: one loop over the units and one over each unit's entries. */
  method Dies(info: Bytes, abbrev: Bytes, dstr: Bytes) returns (dies: seq<Die>, ok: bool)
    ensures Walked(dies, ok) == WalkAll(info, abbrev, dstr, 0)
  {
    dies := [];
    var o := 0;
    ThenNothing([], WalkAll(info, abbrev, dstr, 0));
    while o < |info|
      invariant Then(dies, WalkAll(info, abbrev, dstr, o)) == WalkAll(info, abbrev, dstr, 0)
      decreases |info| - o
    {
      var u := Header(info, abbrev, o);
      if u.None? {
        ThenNothing(dies, Walked([], false));
        return dies, false;
      }
      var here, fine := UnitDies(info, dstr, u.value);
      if !fine { return dies + here, false; }
      ThenMore(dies, here, WalkAll(info, abbrev, dstr, u.value.end));
      dies := dies + here;
      o := u.value.end;
    }
    ThenNothing(dies, Walked([], true));
    ok := true;
  }

  method Header(info: Bytes, abbrev: Bytes, o: nat) returns (u: Option<Unit>)
    ensures u == ReadHeader(info, abbrev, o)
  {
    var length := ReadBE(info, o, 4);
    if length.None? { return None; }
    var abbrOff := ReadBE(info, o + 6, 4);
    if abbrOff.None? || o + 10 >= |info| { return None; }
    var table := ParseAbbrev(abbrev, abbrOff.value);
    if table.None? { return None; }
    return Some(Unit(table.value, info[o + 10], o, o + 4 + length.value));
  }

  method UnitDies(info: Bytes, dstr: Bytes, u: Unit) returns (dies: seq<Die>, ok: bool)
    ensures Walked(dies, ok) == WalkUnit(info, dstr, u, u.base + 11, 0)
  {
    dies := [];
    var p, depth: int := u.base + 11, 0;
    ThenNothing([], WalkUnit(info, dstr, u, p, depth));
    while p < u.end
      invariant Then(dies, WalkUnit(info, dstr, u, p, depth)) == WalkUnit(info, dstr, u, u.base + 11, 0)
      decreases u.end - p
    {
      ThenNothing(dies, Walked([], false));
      var found := NextDie(info, dstr, u, p, depth);
      match found
      case Bad => return dies, false;
      case Null(next) =>
        p := next;
        depth := depth - 1;
      case Entry(die, next, down) =>
        p := next;
        if down { depth := depth + 1; }
        ThenMore(dies, [die], WalkUnit(info, dstr, u, p, depth));
        dies := dies + [die];
    }
    ThenNothing(dies, Walked([], true));
    ok := true;
  }

  method NextDie(info: Bytes, dstr: Bytes, u: Unit, p: nat, depth: int) returns (found: Found)
    ensures found == ReadDie(info, dstr, u, p, depth)
  {
    var code := Uleb(info, p);
    if code.None? { return Bad; }
    if code.value.0 == 0 { return Null(code.value.1); }
    if code.value.0 !in u.table { return Bad; }
    var entry := u.table[code.value.0];
    var vals := Values(info, dstr, code.value.1, entry.attrs, u);
    if vals.None? { return Bad; }
    return Entry(Die(p, entry.tag, vals.value.0, depth), vals.value.1, entry.hasChildren != 0);
  }

  method Values(info: Bytes, dstr: Bytes, start: nat, attrs: seq<(nat, nat)>, u: Unit)
    returns (r: Option<(map<nat, Value>, nat)>)
    ensures r == ReadValues(info, dstr, start, attrs, u.addrSize, u.base, map[])
  {
    var vals: map<nat, Value> := map[];
    var k, p := 0, start;
    while k < |attrs|
      invariant k <= |attrs|
      invariant ReadValues(info, dstr, start, attrs, u.addrSize, u.base, map[])
                == ReadValues(info, dstr, p, attrs[k..], u.addrSize, u.base, vals)
    {
      assert attrs[k..][1..] == attrs[k + 1..];
      var v := ReadForm(info, dstr, p, attrs[k].1, u.addrSize, u.base);
      if v.None? { return None; }
      vals := vals[attrs[k].0 := v.value.0];
      p := v.value.1;
      k := k + 1;
    }
    return Some((vals, p));
  }
}
