/**
 The printer of DWARF version 2, section 7.5: abbreviation tables, attribute values and
 entries with their children. The reader of DwarfInfo gives back what it prints.
 */
module DwarfPrinter {
  import opened Common
  import opened Bytes
  import opened Leb128
  import opened DwarfInfo

  // ----- abbreviation tables -----------------------------------------------------

  function PrintAttrs(attrs: seq<(nat, nat)>): Bytes {
    if attrs == [] then [0, 0]
    else EncodeUleb(attrs[0].0) + (EncodeUleb(attrs[0].1) + PrintAttrs(attrs[1..]))
  }

  function PrintAbbrev(entry: Abbrev): Bytes {
    EncodeUleb(entry.tag) + ([entry.hasChildren] + PrintAttrs(entry.attrs))
  }

  function PrintTable(entries: seq<(nat, Abbrev)>): Bytes {
    if entries == [] then [0]
    else EncodeUleb(entries[0].0) + (PrintAbbrev(entries[0].1) + PrintTable(entries[1..]))
  }

  function TableOf(entries: seq<(nat, Abbrev)>, table: Table): Table {
    if entries == [] then table else TableOf(entries[1..], table[entries[0].0 := entries[0].1])
  }

  ghost predicate AttrsPrintable(attrs: seq<(nat, nat)>) {
    forall k :: 0 <= k < |attrs| ==> attrs[k] != (0, 0)
  }

  ghost predicate TablePrintable(entries: seq<(nat, Abbrev)>) {
    forall k :: 0 <= k < |entries| ==> entries[k].0 != 0 && AttrsPrintable(entries[k].1.attrs)
  }

  lemma AttrsEndRoundTrip(d: Bytes, o: nat)
    requires At(d, o, [0, 0])
    ensures ReadAttrs(d, o) == Some(([], o + 2))
  {
    assert EncodeUleb(0) + EncodeUleb(0) == [0, 0];
    AtSplit(d, o, EncodeUleb(0), EncodeUleb(0));
    UlebRoundTrip(d, o, 0);
    UlebRoundTrip(d, o + 1, 0);
  }

  lemma {:induction false} AttrsRoundTrip(d: Bytes, o: nat, attrs: seq<(nat, nat)>)
    requires AttrsPrintable(attrs) && At(d, o, PrintAttrs(attrs))
    ensures ReadAttrs(d, o) == Some((attrs, o + |PrintAttrs(attrs)|))
    decreases |attrs|
  {
    hide EncodeUleb, DecodeUleb;
    if attrs == [] {
      AttrsEndRoundTrip(d, o);
    } else {
      var a, f := EncodeUleb(attrs[0].0), EncodeUleb(attrs[0].1);
      var rest := PrintAttrs(attrs[1..]);
      AtSplit(d, o, a, f + rest);
      AtSplit(d, o + |a|, f, rest);
      UlebRoundTrip(d, o, attrs[0].0);
      UlebRoundTrip(d, o + |a|, attrs[0].1);
      assert AttrsPrintable(attrs[1..]);
      AttrsRoundTrip(d, o + |a| + |f|, attrs[1..]);
      assert attrs[0] != (0, 0) && attrs[0] == (attrs[0].0, attrs[0].1);
      assert [attrs[0]] + attrs[1..] == attrs;
    }
  }

  lemma AbbrevRoundTrip(d: Bytes, o: nat, entry: Abbrev)
    requires AttrsPrintable(entry.attrs) && At(d, o, PrintAbbrev(entry))
    ensures ReadAbbrev(d, o) == Some((entry, o + |PrintAbbrev(entry)|))
  {
    var tag := EncodeUleb(entry.tag);
    AtSplit(d, o, tag, [entry.hasChildren] + PrintAttrs(entry.attrs));
    AtSplit(d, o + |tag|, [entry.hasChildren], PrintAttrs(entry.attrs));
    UlebRoundTrip(d, o, entry.tag);
    AtHead(d, o + |tag|, [entry.hasChildren]);
    AttrsRoundTrip(d, o + |tag| + 1, entry.attrs);
  }

  /** A printed table is read back, whatever follows it in the section. */
  lemma {:induction false} TableRoundTrip(d: Bytes, o: nat, entries: seq<(nat, Abbrev)>, table: Table)
    requires TablePrintable(entries) && At(d, o, PrintTable(entries))
    ensures ReadTable(d, o, table) == Some(TableOf(entries, table))
    decreases |entries|
  {
    hide EncodeUleb, PrintAbbrev, ReadAbbrev;
    if entries == [] {
      AtHead(d, o, [0]);
    } else {
      var code := EncodeUleb(entries[0].0);
      var entry := PrintAbbrev(entries[0].1);
      AtSplit(d, o, code, entry + PrintTable(entries[1..]));
      AtSplit(d, o + |code|, entry, PrintTable(entries[1..]));
      AtHead(d, o, code);
      UlebRoundTrip(d, o, entries[0].0);
      AbbrevRoundTrip(d, o + |code|, entries[0].1);
      assert TablePrintable(entries[1..]);
      TableRoundTrip(d, o + |code| + |entry|, entries[1..], table[entries[0].0 := entries[0].1]);
    }
  }

  // ----- attribute values ----------------------------------------------------------

  /** A value to print; a string printed by reference also says where it stands in .debug_str. */
  datatype Operand = Operand(value: Value, strOffset: nat)

  datatype Ctx = Ctx(table: Table, addrSize: nat, base: nat)

  function WidthOf(form: nat, addrSize: nat): nat {
    if form == 0x01 then addrSize
    else if form in {0x0b, 0x0c, 0x11, 0x0a} then 1
    else if form in {0x05, 0x12, 0x03} then 2
    else if form in {0x06, 0x10, 0x13, 0x04, 0x0e} then 4
    else 8
  }

  function AddOf(form: nat, base: nat): nat {
    if form in {0x11, 0x12, 0x13, 0x14, 0x15} then base else 0
  }

  const FIXED_FORMS: set<nat> := {0x01, 0x0b, 0x0c, 0x05, 0x06, 0x10, 0x07, 0x11, 0x12, 0x13, 0x14}
  const BLOCK_FORMS: set<nat> := {0x0a, 0x03, 0x04}

  ghost predicate Fits(form: nat, x: Operand, c: Ctx, dstr: Bytes) {
    if form in FIXED_FORMS then
      && x.value.Num? && 0 <= x.value.n - AddOf(form, c.base) < Pow256(WidthOf(form, c.addrSize))
      && (form == 0x01 ==> c.addrSize == 4 || c.addrSize == 8)
    else if form == 0x08 then x.value.Str? && NoZero(x.value.s)
    else if form == 0x0e then
      x.value.Str? && NoZero(x.value.s) && x.strOffset < Pow256(4) && At(dstr, x.strOffset, x.value.s + [0])
    else if form == 0x0f || form == 0x15 then x.value.Num? && x.value.n >= AddOf(form, c.base)
    else if form == 0x0d then x.value.Num?
    else if form in BLOCK_FORMS then x.value.Block? && |x.value.b| < Pow256(WidthOf(form, c.addrSize))
    else form == 0x09 && x.value.Block?
  }

  function PrintOperand(form: nat, x: Operand, c: Ctx): Bytes {
    match x.value
    case Num(n) =>
      if form == 0x0d then EncodeSleb(n)
      else
        var raw: nat := if n >= AddOf(form, c.base) then n - AddOf(form, c.base) else 0;
        if form == 0x0f || form == 0x15 then EncodeUleb(raw) else ToBE(raw, WidthOf(form, c.addrSize))
    case Str(s) => if form == 0x0e then ToBE(x.strOffset, 4) else s + [0]
    case Block(b) => (if form == 0x09 then EncodeUleb(|b|) else ToBE(|b|, WidthOf(form, c.addrSize))) + b
  }

  lemma FixedRoundTrip(d: Bytes, dstr: Bytes, o: nat, form: nat, x: Operand, c: Ctx)
    requires form in FIXED_FORMS && Fits(form, x, c, dstr) && At(d, o, PrintOperand(form, x, c))
    ensures ReadForm(d, dstr, o, form, c.addrSize, c.base) == Some((x.value, o + |PrintOperand(form, x, c)|))
  {
    var raw := x.value.n - AddOf(form, c.base);
    assert PrintOperand(form, x, c) == ToBE(raw, WidthOf(form, c.addrSize));
    ReadWritten(d, o, raw, WidthOf(form, c.addrSize));
  }

  lemma BlockRoundTrip(d: Bytes, dstr: Bytes, o: nat, form: nat, x: Operand, c: Ctx)
    requires form in BLOCK_FORMS && Fits(form, x, c, dstr) && At(d, o, PrintOperand(form, x, c))
    ensures ReadForm(d, dstr, o, form, c.addrSize, c.base) == Some((x.value, o + |PrintOperand(form, x, c)|))
  {
    var width, b := WidthOf(form, c.addrSize), x.value.b;
    AtSplit(d, o, ToBE(|b|, width), b);
    ReadWritten(d, o, |b|, width);
    AtSlice(d, o + width, b);
    assert FixedBlock(d, o, width) == Some((Block(b), o + width + |b|));
  }

  lemma StringRoundTrip(d: Bytes, dstr: Bytes, o: nat, form: nat, x: Operand, c: Ctx)
    requires (form == 0x08 || form == 0x0e) && Fits(form, x, c, dstr) && At(d, o, PrintOperand(form, x, c))
    ensures ReadForm(d, dstr, o, form, c.addrSize, c.base) == Some((x.value, o + |PrintOperand(form, x, c)|))
  {
    if form == 0x08 {
      FindsTerminator(d, o, x.value.s);
    } else {
      ReadWritten(d, o, x.strOffset, 4);
      FindsTerminator(dstr, x.strOffset, x.value.s);
    }
  }

  lemma VariableRoundTrip(d: Bytes, dstr: Bytes, o: nat, form: nat, x: Operand, c: Ctx)
    requires form in {0x0f, 0x0d, 0x15, 0x09} && Fits(form, x, c, dstr) && At(d, o, PrintOperand(form, x, c))
    ensures ReadForm(d, dstr, o, form, c.addrSize, c.base) == Some((x.value, o + |PrintOperand(form, x, c)|))
  {
    if form == 0x0d {
      SlebRoundTrip(d, o, x.value.n);
    } else if form == 0x09 {
      var b := x.value.b;
      AtSplit(d, o, EncodeUleb(|b|), b);
      UlebRoundTrip(d, o, |b|);
      AtSlice(d, o + |EncodeUleb(|b|)|, b);
    } else {
      UlebRoundTrip(d, o, x.value.n - AddOf(form, c.base));
    }
  }

  /** A printed value of any form is read back with the offset after it. */
  lemma OperandRoundTrip(d: Bytes, dstr: Bytes, o: nat, form: nat, x: Operand, c: Ctx)
    requires Fits(form, x, c, dstr) && At(d, o, PrintOperand(form, x, c))
    ensures ReadForm(d, dstr, o, form, c.addrSize, c.base) == Some((x.value, o + |PrintOperand(form, x, c)|))
  {
    if form in FIXED_FORMS {
      FixedRoundTrip(d, dstr, o, form, x, c);
    } else if form in BLOCK_FORMS {
      BlockRoundTrip(d, dstr, o, form, x, c);
    } else if form == 0x08 || form == 0x0e {
      StringRoundTrip(d, dstr, o, form, x, c);
    } else {
      VariableRoundTrip(d, dstr, o, form, x, c);
    }
  }

  function PrintOperands(attrs: seq<(nat, nat)>, xs: seq<Operand>, c: Ctx): Bytes
    requires |attrs| == |xs|
  {
    if attrs == [] then [] else PrintOperand(attrs[0].1, xs[0], c) + PrintOperands(attrs[1..], xs[1..], c)
  }

  ghost predicate AllFit(attrs: seq<(nat, nat)>, xs: seq<Operand>, c: Ctx, dstr: Bytes) {
    |attrs| == |xs| && forall k :: 0 <= k < |attrs| ==> Fits(attrs[k].1, xs[k], c, dstr)
  }

  function ValsOf(attrs: seq<(nat, nat)>, xs: seq<Operand>, vals: map<nat, Value>): map<nat, Value>
    requires |attrs| == |xs|
  {
    if attrs == [] then vals else ValsOf(attrs[1..], xs[1..], vals[attrs[0].0 := xs[0].value])
  }

  lemma ValuesStep(d: Bytes, dstr: Bytes, p: nat, attrs: seq<(nat, nat)>, c: Ctx, vals: map<nat, Value>,
                   value: Value, next: nat)
    requires attrs != [] && ReadForm(d, dstr, p, attrs[0].1, c.addrSize, c.base) == Some((value, next))
    ensures ReadValues(d, dstr, p, attrs, c.addrSize, c.base, vals)
            == ReadValues(d, dstr, next, attrs[1..], c.addrSize, c.base, vals[attrs[0].0 := value])
  {
  }

  lemma OperandsSplit(d: Bytes, p: nat, attrs: seq<(nat, nat)>, xs: seq<Operand>, c: Ctx)
    requires |attrs| == |xs| && attrs != [] && At(d, p, PrintOperands(attrs, xs, c))
    ensures var here := PrintOperand(attrs[0].1, xs[0], c);
      && At(d, p, here) && At(d, p + |here|, PrintOperands(attrs[1..], xs[1..], c))
      && |PrintOperands(attrs, xs, c)| == |here| + |PrintOperands(attrs[1..], xs[1..], c)|
  {
    hide PrintOperand;
    AtSplit(d, p, PrintOperand(attrs[0].1, xs[0], c), PrintOperands(attrs[1..], xs[1..], c));
  }

  lemma {:induction false} ValuesRoundTrip(d: Bytes, dstr: Bytes, p: nat, attrs: seq<(nat, nat)>,
                                           xs: seq<Operand>, c: Ctx, vals: map<nat, Value>)
    requires AllFit(attrs, xs, c, dstr) && At(d, p, PrintOperands(attrs, xs, c))
    ensures ReadValues(d, dstr, p, attrs, c.addrSize, c.base, vals)
            == Some((ValsOf(attrs, xs, vals), p + |PrintOperands(attrs, xs, c)|))
    decreases |attrs|
  {
    hide ReadForm, PrintOperand, Fits;
    if attrs != [] {
      OperandsSplit(d, p, attrs, xs, c);
      var next := p + |PrintOperand(attrs[0].1, xs[0], c)|;
      assert ReadForm(d, dstr, p, attrs[0].1, c.addrSize, c.base) == Some((xs[0].value, next)) by {
        OperandRoundTrip(d, dstr, p, attrs[0].1, xs[0], c);
      }
      ValuesStep(d, dstr, p, attrs, c, vals, xs[0].value, next);
      assert AllFit(attrs[1..], xs[1..], c, dstr);
      ValuesRoundTrip(d, dstr, next, attrs[1..], xs[1..], c, vals[attrs[0].0 := xs[0].value]);
    }
  }

  // ----- entries ---------------------------------------------------------------------

  /** An entry to print: its abbreviation, its values and its children. */
  datatype Tree = Tree(code: nat, operands: seq<Operand>, children: seq<Tree>)

  ghost predicate TreeFits(t: Tree, c: Ctx, dstr: Bytes)
    decreases t, 1
  {
    && t.code != 0 && t.code in c.table
    && AllFit(c.table[t.code].attrs, t.operands, c, dstr)
    && (c.table[t.code].hasChildren == 0 ==> t.children == [])
    && ForestFits(t.children, c, dstr)
  }

  ghost predicate ForestFits(f: seq<Tree>, c: Ctx, dstr: Bytes)
    decreases f, 0
  {
    f == [] || (TreeFits(f[0], c, dstr) && ForestFits(f[1..], c, dstr))
  }

  function PrintHead(t: Tree, c: Ctx): (s: Bytes)
    ensures |s| > 0
  {
    EncodeUleb(t.code)
    + (if t.code in c.table && |c.table[t.code].attrs| == |t.operands|
       then PrintOperands(c.table[t.code].attrs, t.operands, c) else [])
  }

  /** The entry, its children, and the null entry that ends them. */
  function PrintTree(t: Tree, c: Ctx): (s: Bytes)
    decreases t, 1
  {
    PrintHead(t, c)
    + (if t.code in c.table && c.table[t.code].hasChildren != 0 then PrintForest(t.children, c) + [0] else [])
  }

  function PrintForest(f: seq<Tree>, c: Ctx): Bytes
    decreases f, 0
  {
    if f == [] then [] else PrintTree(f[0], c) + PrintForest(f[1..], c)
  }

  /** What an entry says, where it stands, and its children: the meaning of a printed tree. */
  datatype Item = Item(offset: nat, tag: nat, vals: map<nat, Value>, kids: seq<Item>)

  function ItemOf(t: Tree, c: Ctx, offset: nat): Item
    decreases t, 1
  {
    var entry := if t.code in c.table then c.table[t.code] else Abbrev(0, 0, []);
    Item(offset, entry.tag,
         if |entry.attrs| == |t.operands| then ValsOf(entry.attrs, t.operands, map[]) else map[],
         ItemsOf(t.children, c, offset + |PrintHead(t, c)|))
  }

  function ItemsOf(f: seq<Tree>, c: Ctx, offset: nat): seq<Item>
    decreases f, 0
  {
    if f == [] then []
    else [ItemOf(f[0], c, offset)] + ItemsOf(f[1..], c, offset + |PrintTree(f[0], c)|)
  }

  /** The preorder of an item, each entry with its depth. */
  function Flat(item: Item, depth: int): seq<Die>
    decreases item, 1
  {
    [Die(item.offset, item.tag, item.vals, depth)] + FlatAll(item.kids, depth + 1)
  }

  function FlatAll(items: seq<Item>, depth: int): seq<Die>
    decreases items, 0
  {
    if items == [] then [] else Flat(items[0], depth) + FlatAll(items[1..], depth)
  }

  lemma HeadRoundTrip(info: Bytes, dstr: Bytes, t: Tree, c: Ctx, p: nat)
    requires TreeFits(t, c, dstr) && At(info, p, PrintHead(t, c))
    ensures DecodeUleb(info, p) == Some((t.code, p + |EncodeUleb(t.code)|))
    ensures |c.table[t.code].attrs| == |t.operands|
    ensures ReadValues(info, dstr, p + |EncodeUleb(t.code)|, c.table[t.code].attrs, c.addrSize, c.base, map[])
            == Some((ValsOf(c.table[t.code].attrs, t.operands, map[]), p + |PrintHead(t, c)|))
  {
    hide PrintOperand, ReadForm, PrintOperands, ReadValues, DecodeUleb, EncodeUleb, Fits;
    var code := EncodeUleb(t.code);
    var attrs := c.table[t.code].attrs;
    var values := PrintOperands(attrs, t.operands, c);
    assert PrintHead(t, c) == code + values;
    AtSplit(info, p, code, values);
    UlebRoundTrip(info, p, t.code);
    ValuesRoundTrip(info, dstr, p + |code|, attrs, t.operands, c, map[]);
  }

  lemma DieStep(info: Bytes, dstr: Bytes, u: Unit, p: nat, depth: int, code: nat, o: nat,
                vals: map<nat, Value>, next: nat)
    requires DecodeUleb(info, p) == Some((code, o)) && code != 0 && code in u.table
    requires ReadValues(info, dstr, o, u.table[code].attrs, u.addrSize, u.base, map[]) == Some((vals, next))
    ensures ReadDie(info, dstr, u, p, depth)
            == Entry(Die(p, u.table[code].tag, vals, depth), next, u.table[code].hasChildren != 0)
  {
  }

  lemma ItemFields(t: Tree, c: Ctx, p: nat)
    requires t.code in c.table && |c.table[t.code].attrs| == |t.operands|
    ensures ItemOf(t, c, p) == Item(p, c.table[t.code].tag, ValsOf(c.table[t.code].attrs, t.operands, map[]),
                                    ItemsOf(t.children, c, p + |PrintHead(t, c)|))
  {
  }

  /** Reading an entry's head yields it, and its children are next if it has any. */
  lemma HeadStep(info: Bytes, dstr: Bytes, u: Unit, t: Tree, c: Ctx, p: nat, depth: int)
    requires c == Ctx(u.table, u.addrSize, u.base) && TreeFits(t, c, dstr)
    requires At(info, p, PrintHead(t, c))
    ensures ReadDie(info, dstr, u, p, depth)
            == Entry(Die(p, ItemOf(t, c, p).tag, ItemOf(t, c, p).vals, depth), p + |PrintHead(t, c)|,
                     u.table[t.code].hasChildren != 0)
  {
    hide ReadForm, ReadDie, ReadValues, PrintHead, DecodeUleb, ItemOf, Fits;
    HeadRoundTrip(info, dstr, t, c, p);
    ItemFields(t, c, p);
    DieStep(info, dstr, u, p, depth, t.code, p + |EncodeUleb(t.code)|, ItemOf(t, c, p).vals, p + |PrintHead(t, c)|);
  }

  lemma EntryStep(info: Bytes, dstr: Bytes, u: Unit, p: nat, depth: int, die: Die, next: nat, down: bool)
    requires p < u.end && ReadDie(info, dstr, u, p, depth) == Entry(die, next, down)
    ensures WalkUnit(info, dstr, u, p, depth)
            == Then([die], WalkUnit(info, dstr, u, next, if down then depth + 1 else depth))
  {
  }

  lemma NullStep(info: Bytes, dstr: Bytes, u: Unit, p: nat, depth: int)
    requires At(info, p, [0]) && p < u.end
    ensures WalkUnit(info, dstr, u, p, depth) == WalkUnit(info, dstr, u, p + 1, depth - 1)
  {
    AtHead(info, p, [0]);
  }

  lemma {:induction false} TreeRoundTrip(info: Bytes, dstr: Bytes, u: Unit, t: Tree, c: Ctx, p: nat, depth: int)
    requires c == Ctx(u.table, u.addrSize, u.base) && TreeFits(t, c, dstr)
    requires At(info, p, PrintTree(t, c)) && p + |PrintTree(t, c)| <= u.end
    ensures WalkUnit(info, dstr, u, p, depth)
            == Then(Flat(ItemOf(t, c, p), depth), WalkUnit(info, dstr, u, p + |PrintTree(t, c)|, depth))
    decreases t, 1
  {
    hide ReadDie, PrintHead, WalkUnit, DecodeUleb, ReadValues;
    var head := PrintHead(t, c);
    var after := p + |head|;
    var item := ItemOf(t, c, p);
    var die := Die(p, item.tag, item.vals, depth);
    if u.table[t.code].hasChildren != 0 {
      var kids := PrintForest(t.children, c);
      assert PrintTree(t, c) == head + (kids + [0]);
      AtSplit(info, p, head, kids + [0]);
      AtSplit(info, after, kids, [0]);
      HeadStep(info, dstr, u, t, c, p, depth);
      EntryStep(info, dstr, u, p, depth, die, after, true);
      ForestRoundTrip(info, dstr, u, t.children, c, after, depth + 1);
      var last := after + |kids|;
      NullStep(info, dstr, u, last, depth + 1);
      FamilyJoins(die, FlatAll(item.kids, depth + 1), WalkUnit(info, dstr, u, p, depth),
                  WalkUnit(info, dstr, u, after, depth + 1), WalkUnit(info, dstr, u, last + 1, depth));
    } else {
      assert PrintTree(t, c) == head;
      HeadStep(info, dstr, u, t, c, p, depth);
      EntryStep(info, dstr, u, p, depth, die, after, false);
      assert Flat(item, depth) == [die];
    }
  }

  lemma FamilyJoins(die: Die, kids: seq<Die>, whole: Walked, inner: Walked, rest: Walked)
    requires whole == Then([die], inner) && inner == Then(kids, rest)
    ensures whole == Then([die] + kids, rest)
  {
    ThenMore([die], kids, rest);
  }

  lemma NothingPrinted(c: Ctx, p: nat, depth: int)
    ensures PrintForest([], c) == [] && ItemsOf([], c, p) == [] && FlatAll([], depth) == []
  {
  }

  lemma {:induction false} ForestRoundTrip(info: Bytes, dstr: Bytes, u: Unit, f: seq<Tree>, c: Ctx, p: nat, depth: int)
    requires c == Ctx(u.table, u.addrSize, u.base) && ForestFits(f, c, dstr)
    requires At(info, p, PrintForest(f, c)) && p + |PrintForest(f, c)| <= u.end
    ensures WalkUnit(info, dstr, u, p, depth)
            == Then(FlatAll(ItemsOf(f, c, p), depth), WalkUnit(info, dstr, u, p + |PrintForest(f, c)|, depth))
    decreases f, 0
  {
    hide WalkUnit, PrintTree, ItemOf, Flat, FlatAll, TreeFits;
    if f == [] {
      NothingPrinted(c, p, depth);
      ThenNothing([], WalkUnit(info, dstr, u, p, depth));
    } else {
      var first, rest := PrintTree(f[0], c), PrintForest(f[1..], c);
      var next := p + |first|;
      AtSplit(info, p, first, rest);
      TreeRoundTrip(info, dstr, u, f[0], c, p, depth);
      ForestRoundTrip(info, dstr, u, f[1..], c, next, depth);
      var item, items := ItemOf(f[0], c, p), ItemsOf(f[1..], c, next);
      FlatAllCons(item, items, depth);
      ForestJoins(Flat(item, depth), FlatAll(items, depth), WalkUnit(info, dstr, u, p, depth),
                  WalkUnit(info, dstr, u, next, depth), WalkUnit(info, dstr, u, next + |rest|, depth));
    }
  }

  lemma ForestJoins(first: seq<Die>, more: seq<Die>, whole: Walked, inner: Walked, rest: Walked)
    requires whole == Then(first, inner) && inner == Then(more, rest)
    ensures whole == Then(first + more, rest)
  {
    ThenMore(first, more, rest);
  }

  lemma FlatAllCons(item: Item, items: seq<Item>, depth: int)
    ensures FlatAll([item] + items, depth) == Flat(item, depth) + FlatAll(items, depth)
  {
    assert ([item] + items)[1..] == items;
  }

  // ----- units -----------------------------------------------------------------------

  datatype UnitTree = UnitTree(entries: seq<(nat, Abbrev)>, abbrOff: nat, version: nat, addrSize: Byte, forest: seq<Tree>)

  function CtxOf(x: UnitTree, base: nat): Ctx {
    Ctx(TableOf(x.entries, map[]), x.addrSize, base)
  }

  function PrintUnit(x: UnitTree, base: nat): (s: Bytes)
    ensures |s| > 0
  {
    var body := PrintForest(x.forest, CtxOf(x, base));
    ToBE(7 + |body|, 4) + (ToBE(x.version, 2) + (ToBE(x.abbrOff, 4) + ([x.addrSize] + body)))
  }

  ghost predicate UnitFits(x: UnitTree, base: nat, abbrev: Bytes, dstr: Bytes) {
    && TablePrintable(x.entries) && At(abbrev, x.abbrOff, PrintTable(x.entries))
    && x.abbrOff < Pow256(4) && 7 + |PrintForest(x.forest, CtxOf(x, base))| < Pow256(4)
    && ForestFits(x.forest, CtxOf(x, base), dstr)
  }

  function PrintInfo(units: seq<UnitTree>, base: nat): Bytes {
    if units == [] then [] else PrintUnit(units[0], base) + PrintInfo(units[1..], base + |PrintUnit(units[0], base)|)
  }

  ghost predicate InfoFits(units: seq<UnitTree>, base: nat, abbrev: Bytes, dstr: Bytes) {
    units == [] || (UnitFits(units[0], base, abbrev, dstr)
                    && InfoFits(units[1..], base + |PrintUnit(units[0], base)|, abbrev, dstr))
  }

  function UnitItems(x: UnitTree, base: nat): seq<Item> {
    ItemsOf(x.forest, CtxOf(x, base), base + 11)
  }

  /** The top-level items of every unit, in order. */
  function InfoItems(units: seq<UnitTree>, base: nat): seq<Item> {
    if units == [] then []
    else UnitItems(units[0], base)
         + InfoItems(units[1..], base + |PrintUnit(units[0], base)|)
  }

  lemma HeaderRoundTrip(info: Bytes, abbrev: Bytes, dstr: Bytes, x: UnitTree, o: nat)
    requires UnitFits(x, o, abbrev, dstr) && At(info, o, PrintUnit(x, o))
    ensures var c := CtxOf(x, o);
      && ReadHeader(info, abbrev, o) == Some(Unit(c.table, c.addrSize, o, o + |PrintUnit(x, o)|))
      && At(info, o + 11, PrintForest(x.forest, c)) && |PrintUnit(x, o)| == 11 + |PrintForest(x.forest, c)|
  {
    hide PrintForest, PrintTable, TableOf, Pow256, ToBE, ForestFits;
    var c := CtxOf(x, o);
    var body := PrintForest(x.forest, c);
    var tail := [x.addrSize] + body;
    AtSplit(info, o, ToBE(7 + |body|, 4), ToBE(x.version, 2) + (ToBE(x.abbrOff, 4) + tail));
    AtSplit(info, o + 4, ToBE(x.version, 2), ToBE(x.abbrOff, 4) + tail);
    AtSplit(info, o + 6, ToBE(x.abbrOff, 4), tail);
    AtSplit(info, o + 10, [x.addrSize], body);
    AtHead(info, o + 10, [x.addrSize]);
    ReadWritten(info, o, 7 + |body|, 4);
    ReadWritten(info, o + 6, x.abbrOff, 4);
    TableRoundTrip(abbrev, x.abbrOff, x.entries, map[]);
  }

  lemma FlatAllAppend(a: seq<Item>, b: seq<Item>, depth: int)
    ensures FlatAll(a + b, depth) == FlatAll(a, depth) + FlatAll(b, depth)
    decreases |a|
  {
    if a == [] {
      assert a + b == b;
    } else {
      assert (a + b)[1..] == a[1..] + b;
      FlatAllAppend(a[1..], b, depth);
    }
  }

  /** One unit is read as its entries, and the walk goes on at the next. */
  lemma UnitRoundTrip(info: Bytes, abbrev: Bytes, dstr: Bytes, x: UnitTree, o: nat)
    requires UnitFits(x, o, abbrev, dstr) && At(info, o, PrintUnit(x, o))
    ensures WalkAll(info, abbrev, dstr, o)
            == Then(FlatAll(UnitItems(x, o), 0), WalkAll(info, abbrev, dstr, o + |PrintUnit(x, o)|))
  {
    hide WalkUnit, PrintForest, ItemsOf, FlatAll, PrintUnit, ReadHeader, TableOf;
    HeaderRoundTrip(info, abbrev, dstr, x, o);
    var c, next := CtxOf(x, o), o + |PrintUnit(x, o)|;
    var u := Unit(c.table, c.addrSize, o, next);
    ForestRoundTrip(info, dstr, u, x.forest, c, o + 11, 0);
    UnitEnds(info, dstr, u);
    ThenNothing(FlatAll(UnitItems(x, o), 0), Walked([], true));
  }

  lemma UnitEnds(info: Bytes, dstr: Bytes, u: Unit)
    ensures WalkUnit(info, dstr, u, u.end, 0) == Walked([], true)
  {
  }

  lemma {:induction false} InfoRoundTrip(info: Bytes, abbrev: Bytes, dstr: Bytes, units: seq<UnitTree>, o: nat)
    requires InfoFits(units, o, abbrev, dstr)
    requires At(info, o, PrintInfo(units, o)) && o + |PrintInfo(units, o)| == |info|
    ensures WalkAll(info, abbrev, dstr, o) == Walked(FlatAll(InfoItems(units, o), 0), true)
    decreases |units|
  {
    hide WalkUnit, PrintForest, ItemsOf, FlatAll, PrintUnit, ReadHeader, TableOf;
    if units == [] {
      NothingPrinted(Ctx(map[], 0, 0), o, 0);
    } else {
      var x := units[0];
      var next := o + |PrintUnit(x, o)|;
      AtSplit(info, o, PrintUnit(x, o), PrintInfo(units[1..], next));
      UnitRoundTrip(info, abbrev, dstr, x, o);
      InfoRoundTrip(info, abbrev, dstr, units[1..], next);
      FlatAllAppend(UnitItems(x, o), InfoItems(units[1..], next), 0);
    }
  }

  /** Sections printed from any list of units are read as exactly the preorder of their
      entries, each at its true offset and depth. */
  lemma SectionsRoundTrip(abbrev: Bytes, dstr: Bytes, units: seq<UnitTree>)
    requires InfoFits(units, 0, abbrev, dstr)
    ensures WalkAll(PrintInfo(units, 0), abbrev, dstr, 0) == Walked(FlatAll(InfoItems(units, 0), 0), true)
  {
    AtAll(PrintInfo(units, 0));
    InfoRoundTrip(PrintInfo(units, 0), abbrev, dstr, units, 0);
  }
}
