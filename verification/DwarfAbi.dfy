/**
 Structs and prototypes from the flat stream of entries. Members and parameters are
 reattached to their parents through a table of what is open at each depth.
 */
module DwarfAbi {
  import opened Common
  import opened Bytes
  import opened Leb128
  import opened DwarfInfo
  import opened DwarfPrinter

  const FORMAL_PARAMETER: nat := 0x05
  const MEMBER: nat := 0x0d
  const STRUCTURE_TYPE: nat := 0x13
  const UNION_TYPE: nat := 0x17
  const SUBPROGRAM: nat := 0x2e

  const AT_NAME: nat := 0x03
  const AT_BYTE_SIZE: nat := 0x0b
  const AT_MEMBER_LOCATION: nat := 0x38
  const AT_TYPE: nat := 0x49

  datatype Member = Member(offset: Option<int>, name: Option<Value>, typ: Option<Value>)

  datatype Struct = Struct(size: Value, members: seq<Member>)

  datatype Func = Func(ret: Option<Value>, params: seq<Option<Value>>)

  /** A record open at some depth. Records are never replaced, so a name denotes one. */
  datatype Ref = StructRef(name: Value) | FuncRef(name: Value)

  datatype State = State(structs: map<Value, Struct>, funcs: map<Value, Func>, openAt: map<int, Option<Ref>>, ok: bool)

  const START := State(map[], map[], map[], true)

  function Attr(vals: map<nat, Value>, at: nat): Option<Value> {
    if at in vals then Some(vals[at]) else None
  }

  predicate Truthy(v: Value) {
    match v
    case Num(n) => n != 0
    case Str(s) => s != []
    case Block(b) => b != []
  }

  predicate Named(vals: map<nat, Value>, name: Value) {
    Truthy(name) && Attr(vals, AT_NAME) == Some(name)
  }

  /** A location is a number, or an expression that adds a constant. */
  function MemberOffset(v: Option<Value>): Option<int> {
    match v
    case None => None
    case Some(Num(n)) => Some(n)
    case Some(Str(_)) => None
    case Some(Block(b)) =>
      if b == [] || b[0] != 0x23 then None
      else match DecodeUleb(b, 1)
           case None => None
           case Some(r) => Some(r.0)
  }

  /** An expression cut short in its constant makes the source raise an exception. */
  predicate Readable(v: Option<Value>) {
    match v
    case Some(Block(b)) => b == [] || b[0] != 0x23 || DecodeUleb(b, 1).Some?
    case _ => true
  }

  function MemberOf(vals: map<nat, Value>): Member {
    Member(MemberOffset(Attr(vals, AT_MEMBER_LOCATION)), Attr(vals, AT_NAME), Attr(vals, AT_TYPE))
  }

  function OpenAt(s: State, depth: int): Option<Ref> {
    if depth in s.openAt then s.openAt[depth] else None
  }

  function Opened(s: State, depth: int, ref: Option<Ref>): State {
    s.(openAt := s.openAt[depth := ref])
  }

  function RecordAggregate(s: State, vals: map<nat, Value>, depth: int): (t: State)
    ensures t.openAt == s.openAt[depth := OpenAt(t, depth)]
    ensures t.funcs == s.funcs && forall name :: OpenAt(t, depth) != Some(FuncRef(name))
  {
    match (Attr(vals, AT_NAME), Attr(vals, AT_BYTE_SIZE))
    case (Some(name), Some(size)) =>
      if !Truthy(name) then Opened(s, depth, None)
      else if name !in s.structs then
        Opened(s.(structs := s.structs[name := Struct(size, [])]), depth, Some(StructRef(name)))
      else if s.structs[name].members != [] then Opened(s, depth, None)
      else Opened(s.(structs := s.structs[name := Struct(size, [])]), depth, Some(StructRef(name)))
    case _ => Opened(s, depth, None)
  }

  function RecordSubprogram(s: State, vals: map<nat, Value>, depth: int): (t: State)
    ensures t.openAt == s.openAt[depth := OpenAt(t, depth)]
    ensures t.structs == s.structs && forall name :: OpenAt(t, depth) != Some(StructRef(name))
  {
    match Attr(vals, AT_NAME)
    case Some(name) =>
      if Truthy(name) && name !in s.funcs then
        Opened(s.(funcs := s.funcs[name := Func(Attr(vals, AT_TYPE), [])]), depth, Some(FuncRef(name)))
      else Opened(s, depth, None)
    case None => Opened(s, depth, None)
  }

  function RecordMember(s: State, vals: map<nat, Value>, depth: int): (t: State)
    ensures t.openAt == s.openAt[depth := OpenAt(t, depth)]
    ensures t.funcs == s.funcs && OpenAt(t, depth) == None
  {
    match OpenAt(s, depth - 1)
    case Some(StructRef(name)) =>
      if name !in s.structs then Opened(s, depth, None)
      else
        var was := s.structs[name];
        Opened(s.(structs := s.structs[name := Struct(was.size, was.members + [MemberOf(vals)])],
                  ok := s.ok && Readable(Attr(vals, AT_MEMBER_LOCATION))), depth, None)
    case _ => Opened(s, depth, None)
  }

  function RecordParameter(s: State, vals: map<nat, Value>, depth: int): (t: State)
    ensures t.openAt == s.openAt[depth := OpenAt(t, depth)]
    ensures t.structs == s.structs && OpenAt(t, depth) == None
  {
    match OpenAt(s, depth - 1)
    case Some(FuncRef(name)) =>
      if name !in s.funcs then Opened(s, depth, None)
      else
        var was := s.funcs[name];
        Opened(s.(funcs := s.funcs[name := Func(was.ret, was.params + [Attr(vals, AT_TYPE)])]), depth, None)
    case _ => Opened(s, depth, None)
  }

  /** What one entry of the stream does. */
  function Record(s: State, die: Die): (t: State)
    ensures t.openAt == s.openAt[die.depth := OpenAt(t, die.depth)]
    ensures s.structs.Keys <= t.structs.Keys && s.funcs.Keys <= t.funcs.Keys
  {
    if die.tag == STRUCTURE_TYPE || die.tag == UNION_TYPE then RecordAggregate(s, die.vals, die.depth)
    else if die.tag == SUBPROGRAM then RecordSubprogram(s, die.vals, die.depth)
    else if die.tag == MEMBER then RecordMember(s, die.vals, die.depth)
    else if die.tag == FORMAL_PARAMETER then RecordParameter(s, die.vals, die.depth)
    else Opened(s, die.depth, None)
  }

  function After(s: State, dies: seq<Die>): State
    decreases |dies|
  {
    if dies == [] then s else After(Record(s, dies[0]), dies[1..])
  }

  lemma {:induction false} AfterAppend(s: State, a: seq<Die>, b: seq<Die>)
    ensures After(s, a + b) == After(After(s, a), b)
    decreases |a|
  {
    if a == [] {
      assert a + b == b;
    } else {
      assert (a + b)[1..] == a[1..] + b;
      AfterAppend(Record(s, a[0]), a[1..], b);
    }
  }

  lemma {:induction false} NeverMended(s: State, dies: seq<Die>)
    requires !s.ok
    ensures !After(s, dies).ok
    decreases |dies|
  {
    if dies != [] { NeverMended(Record(s, dies[0]), dies[1..]); }
  }

  /** The loop over the entries; no result when a member's location cannot be read. */
  method Extract(dies: seq<Die>) returns (structs: map<Value, Struct>, funcs: map<Value, Func>, ok: bool)
    ensures ok == After(START, dies).ok
    ensures ok ==> structs == After(START, dies).structs && funcs == After(START, dies).funcs
  {
    hide Record;
    var s := START;
    var k := 0;
    while k < |dies|
      invariant k <= |dies| && s.ok
      invariant After(s, dies[k..]) == After(START, dies)
    {
      assert dies[k..][1..] == dies[k + 1..];
      s := Record(s, dies[k]);
      k := k + 1;
      if !s.ok {
        NeverMended(s, dies[k..]);
        return map[], map[], false;
      }
    }
    return s.structs, s.funcs, true;
  }

  // ----- what the tree says ---------------------------------------------------------

  /** The item is a struct or union with this name and a size. */
  predicate Defines(item: Item, name: Value) {
    && (item.tag == STRUCTURE_TYPE || item.tag == UNION_TYPE)
    && Named(item.vals, name) && Attr(item.vals, AT_BYTE_SIZE).Some?
  }

  function DirectMembers(kids: seq<Item>): seq<Member> {
    if kids == [] then []
    else (if kids[0].tag == MEMBER then [MemberOf(kids[0].vals)] else []) + DirectMembers(kids[1..])
  }

  function DirectParams(kids: seq<Item>): seq<Option<Value>> {
    if kids == [] then []
    else (if kids[0].tag == FORMAL_PARAMETER then [Attr(kids[0].vals, AT_TYPE)] else []) + DirectParams(kids[1..])
  }

  /** The definitions of a name below an item and the item itself, in preorder. */
  function Definitions(item: Item, name: Value): seq<Struct>
    decreases item, 1
  {
    (if Defines(item, name) then [Struct(item.vals[AT_BYTE_SIZE], DirectMembers(item.kids))] else [])
    + AllDefinitions(item.kids, name)
  }

  function AllDefinitions(items: seq<Item>, name: Value): seq<Struct>
    decreases items, 0
  {
    if items == [] then [] else Definitions(items[0], name) + AllDefinitions(items[1..], name)
  }

  /** No definition of the name stands inside another, as no type contains itself. */
  ghost predicate NotNested(item: Item, name: Value)
    decreases item, 1
  {
    (Defines(item, name) ==> AllDefinitions(item.kids, name) == []) && NoneNested(item.kids, name)
  }

  ghost predicate NoneNested(items: seq<Item>, name: Value)
    decreases items, 0
  {
    items == [] || (NotNested(items[0], name) && NoneNested(items[1..], name))
  }

  /** The first definition with members, or the last one if none has any. */
  function Richest(defs: seq<Struct>): Option<Struct> {
    if defs == [] then None
    else if |defs| == 1 || defs[0].members != [] then Some(defs[0])
    else Richest(defs[1..])
  }

  /** The members of some definitions, those of later ones first. */
  function Gathered(defs: seq<Struct>): seq<Member> {
    if defs == [] then [] else Gathered(defs[1..]) + defs[0].members
  }

  /** The definitions of a name that are reached before any member of one is read. */
  function OpenedIn(item: Item, name: Value): seq<Struct>
    decreases item, 1
  {
    (if Defines(item, name) then [Struct(item.vals[AT_BYTE_SIZE], DirectMembers(item.kids))] else [])
    + OpenedAmong(item.kids, name, Defines(item, name))
  }

  /** The same for siblings, which stand inside a definition of the name or not. */
  function OpenedAmong(items: seq<Item>, name: Value, inside: bool): seq<Struct>
    decreases items, 0
  {
    if items == [] || (inside && items[0].tag == MEMBER) then []
    else
      var first := OpenedIn(items[0], name);
      if Gathered(first) != [] then first else first + OpenedAmong(items[1..], name, inside)
  }

  /** One record for all of them: the size of the last, and the members of all. */
  function Merged(defs: seq<Struct>): Option<Struct> {
    if defs == [] then None else Some(Struct(defs[|defs| - 1].size, Gathered(defs)))
  }

  /** At most one definition has members, and its size is the last one's. */
  ghost predicate OneRich(defs: seq<Struct>) {
    forall i, j :: 0 <= i < |defs| && 0 <= j < |defs| && defs[i].members != [] ==>
      (defs[j].members != [] ==> i == j) && defs[|defs| - 1].size == defs[i].size
  }

  function Prototypes(item: Item, name: Value): seq<Func>
    decreases item, 1
  {
    (if item.tag == SUBPROGRAM && Named(item.vals, name)
     then [Func(Attr(item.vals, AT_TYPE), DirectParams(item.kids))] else [])
    + AllPrototypes(item.kids, name)
  }

  function AllPrototypes(items: seq<Item>, name: Value): seq<Func>
    decreases items, 0
  {
    if items == [] then [] else Prototypes(items[0], name) + AllPrototypes(items[1..], name)
  }

  // ----- structs ----------------------------------------------------------------------

  function Get<T>(m: map<Value, T>, name: Value): Option<T> {
    if name in m then Some(m[name]) else None
  }

  function WithMembers(x: Option<Struct>, more: seq<Member>): Option<Struct> {
    match x
    case None => None
    case Some(was) => Some(Struct(was.size, was.members + more))
  }

  /** A struct open anywhere has its record. */
  ghost predicate Ready(s: State, name: Value) {
    forall k {:trigger OpenAt(s, k)} :: OpenAt(s, k) == Some(StructRef(name)) ==> name in s.structs
  }

  ghost predicate SameBelow(a: State, b: State, depth: int) {
    forall k {:trigger OpenAt(b, k)} :: k < depth ==> OpenAt(a, k) == OpenAt(b, k)
  }

  predicate OpensInto(s: State, depth: int, name: Value) {
    OpenAt(s, depth - 1) == Some(StructRef(name))
  }

  lemma RecordTouchesItsDepth(s: State, die: Die, name: Value)
    requires Ready(s, name)
    ensures Ready(Record(s, die), name)
    ensures forall k {:trigger OpenAt(Record(s, die), k)} :: k != die.depth ==> OpenAt(Record(s, die), k) == OpenAt(s, k)
  {
    var t := Record(s, die);
    if OpenAt(t, die.depth) == Some(StructRef(name)) { RecordedOpens(s, die, name); }
    hide Record;
    forall k ensures OpenAt(t, k) == Some(StructRef(name)) ==> name in t.structs {
      assert OpenAt(s, k) == Some(StructRef(name)) ==> name in s.structs;
    }
  }

  lemma RecordedOpens(s: State, die: Die, name: Value)
    requires OpenAt(Record(s, die), die.depth) == Some(StructRef(name))
    ensures name in Record(s, die).structs
  {
    hide RecordSubprogram, RecordMember, RecordParameter, Truthy;
  }

  /** An entry that does not define the name adds to its record only as a member of it. */
  lemma RecordOther(s: State, item: Item, depth: int, name: Value)
    requires Ready(s, name) && !Defines(item, name)
    ensures var t := Record(s, Die(item.offset, item.tag, item.vals, depth));
      && OpenAt(t, depth) != Some(StructRef(name))
      && Get(t.structs, name) == if OpensInto(s, depth, name) && item.tag == MEMBER
                                 then WithMembers(Get(s.structs, name), [MemberOf(item.vals)])
                                 else Get(s.structs, name)
  {
    hide MemberOf, Truthy, RecordSubprogram, RecordParameter;
    if item.tag == MEMBER { hide RecordAggregate; } else { hide RecordMember; }
  }

  lemma FlatSplits(s: State, item: Item, depth: int)
    ensures var t := Record(s, Die(item.offset, item.tag, item.vals, depth));
      After(s, Flat(item, depth)) == After(t, FlatAll(item.kids, depth + 1))
  {
    var die := Die(item.offset, item.tag, item.vals, depth);
    AfterAppend(s, [die], FlatAll(item.kids, depth + 1));
    assert After(s, [die]) == Record(s, die) by {
      assert [die][1..] == [];
    }
  }

  lemma FlatAllSplits(s: State, items: seq<Item>, depth: int)
    requires items != []
    ensures After(s, FlatAll(items, depth)) == After(After(s, Flat(items[0], depth)), FlatAll(items[1..], depth))
  {
    AfterAppend(s, Flat(items[0], depth), FlatAll(items[1..], depth));
  }

  lemma WithMore(x: Option<Struct>, a: seq<Member>, b: seq<Member>)
    ensures WithMembers(WithMembers(x, a), b) == WithMembers(x, a + b)
    ensures WithMembers(x, []) == x
  {
    if x.Some? {
      assert x.value.members + a + b == x.value.members + (a + b);
      assert x.value.members + [] == x.value.members;
    }
  }

  predicate Rich(x: Option<Struct>) {
    x.Some? && x.value.members != []
  }

  /** A name whose record has members is not opened again. */
  lemma RecordLater(s: State, item: Item, depth: int, name: Value)
    requires Ready(s, name) && Defines(item, name) && Rich(Get(s.structs, name))
    ensures var t := Record(s, Die(item.offset, item.tag, item.vals, depth));
      OpenAt(t, depth) != Some(StructRef(name)) && Get(t.structs, name) == Get(s.structs, name)
  {
  }

  lemma RecordOpens(s: State, item: Item, depth: int, name: Value)
    requires Ready(s, name) && Defines(item, name) && !Rich(Get(s.structs, name))
    ensures var t := Record(s, Die(item.offset, item.tag, item.vals, depth));
      && OpenAt(t, depth) == Some(StructRef(name))
      && Get(t.structs, name) == Some(Struct(item.vals[AT_BYTE_SIZE], []))
  {
  }

  /** Once a member has been read, a subtree adds its own entry at most. */
  lemma {:induction false} RichSubtree(s: State, item: Item, depth: int, name: Value)
    requires Ready(s, name) && Rich(Get(s.structs, name))
    ensures var t := After(s, Flat(item, depth));
      && Ready(t, name) && SameBelow(s, t, depth)
      && Get(t.structs, name) == if OpensInto(s, depth, name) && item.tag == MEMBER
                                 then WithMembers(Get(s.structs, name), [MemberOf(item.vals)])
                                 else Get(s.structs, name)
    decreases item, 1
  {
    hide Record, FlatAll, After, MemberOf;
    var die := Die(item.offset, item.tag, item.vals, depth);
    FlatSplits(s, item, depth);
    RecordTouchesItsDepth(s, die, name);
    if Defines(item, name) { RecordLater(s, item, depth, name); } else { RecordOther(s, item, depth, name); }
    RichSubtrees(Record(s, die), item.kids, depth + 1, name);
    WithMore(Get(Record(s, die).structs, name), [], []);
  }

  lemma NothingAfter(s: State, depth: int)
    ensures After(s, FlatAll([], depth)) == s
  {
  }

  lemma {:induction false} RichSubtrees(s: State, items: seq<Item>, depth: int, name: Value)
    requires Ready(s, name) && Rich(Get(s.structs, name))
    ensures var t := After(s, FlatAll(items, depth));
      && Ready(t, name) && SameBelow(s, t, depth)
      && Get(t.structs, name) == WithMembers(Get(s.structs, name), Joining(s, items, depth, name))
    decreases items, 0
  {
    hide Record, FlatAll, After, MemberOf, Flat;
    if items == [] {
      NothingAfter(s, depth);
      WithMore(Get(s.structs, name), [], []);
    } else {
      FlatAllSplits(s, items, depth);
      RichSubtree(s, items[0], depth, name);
      RichSubtrees(After(s, Flat(items[0], depth)), items[1..], depth, name);
      var here := if items[0].tag == MEMBER then [MemberOf(items[0].vals)] else [];
      WithMore(Get(s.structs, name), here, DirectMembers(items[1..]));
    }
  }

  /** The members among siblings that belong to the name's open record. */
  function Joining(s: State, items: seq<Item>, depth: int, name: Value): seq<Member> {
    if OpensInto(s, depth, name) then DirectMembers(items) else []
  }

  /** A record without members, after some definitions are opened and then some members read. */
  function Lay(x: Option<Struct>, defs: seq<Struct>, more: seq<Member>): Option<Struct> {
    if defs == [] then WithMembers(x, more) else Some(Struct(defs[|defs| - 1].size, Gathered(defs) + more))
  }

  lemma {:induction false} GatheredMore(a: seq<Struct>, b: seq<Struct>)
    ensures Gathered(a + b) == Gathered(b) + Gathered(a)
    decreases |a|
  {
    if a == [] {
      assert a + b == b && Gathered(b) + [] == Gathered(b);
    } else {
      assert (a + b)[1..] == a[1..] + b;
      GatheredMore(a[1..], b);
    }
  }

  lemma LayNone(x: Option<Struct>)
    ensures Lay(x, [], []) == x
  {
    WithMore(x, [], []);
  }

  lemma LayMore(x: Option<Struct>, a: seq<Struct>, b: seq<Struct>, more: seq<Member>)
    requires Gathered(a) == [] && !Rich(x)
    ensures !Rich(Lay(x, a, [])) && Lay(Lay(x, a, []), b, more) == Lay(x, a + b, more)
  {
    hide Gathered;
    WithMore(x, [], more);
    assert [] + more == more;
    if b == [] {
      assert a + b == a;
    } else {
      GatheredMore(a, b);
      assert Gathered(b) + [] == Gathered(b) && (a + b)[|a + b| - 1] == b[|b| - 1];
    }
  }

  /** A definition's own record: what its children leave in it is what it and the
      definitions opened below it come to. */
  lemma LayDefinition(x: Option<Struct>, size: Value, members: seq<Member>, defs: seq<Struct>)
    ensures Lay(Some(Struct(size, [])), defs, members) == Lay(x, [Struct(size, members)] + defs, [])
  {
    var all := [Struct(size, members)] + defs;
    assert all[1..] == defs && Gathered(all) + [] == Gathered(defs) + members;
    assert [] + members == members;
    if defs != [] { assert all[|all| - 1] == defs[|defs| - 1]; }
  }

  /** What a subtree makes of a record that has no members yet. */
  lemma {:induction false} BareSubtree(s: State, item: Item, depth: int, name: Value)
    requires Ready(s, name) && !Rich(Get(s.structs, name))
    ensures var t := After(s, Flat(item, depth));
      && Ready(t, name) && SameBelow(s, t, depth)
      && Get(t.structs, name) == if OpensInto(s, depth, name) && item.tag == MEMBER
                                 then WithMembers(Get(s.structs, name), [MemberOf(item.vals)])
                                 else Lay(Get(s.structs, name), OpenedIn(item, name), [])
    decreases item, 1
  {
    hide Record, FlatAll, After, MemberOf, Flat, OpenedAmong, Lay, Gathered;
    var die := Die(item.offset, item.tag, item.vals, depth);
    FlatSplits(s, item, depth);
    RecordTouchesItsDepth(s, die, name);
    var t := Record(s, die);
    var below := OpenedAmong(item.kids, name, Defines(item, name));
    if Defines(item, name) {
      RecordOpens(s, item, depth, name);
      BareSubtrees(t, item.kids, depth + 1, name);
      LayDefinition(Get(s.structs, name), item.vals[AT_BYTE_SIZE], DirectMembers(item.kids), below);
    } else {
      RecordOther(s, item, depth, name);
      assert [] + below == below;
      if OpensInto(s, depth, name) && item.tag == MEMBER {
        RichSubtrees(t, item.kids, depth + 1, name);
        WithMore(Get(t.structs, name), [], []);
      } else {
        BareSubtrees(t, item.kids, depth + 1, name);
      }
    }
  }

  lemma {:induction false} BareSubtrees(s: State, items: seq<Item>, depth: int, name: Value)
    requires Ready(s, name) && !Rich(Get(s.structs, name))
    ensures var t := After(s, FlatAll(items, depth));
      && Ready(t, name) && SameBelow(s, t, depth)
      && Get(t.structs, name) == Lay(Get(s.structs, name), OpenedAmong(items, name, OpensInto(s, depth, name)),
                                     Joining(s, items, depth, name))
    decreases items, 0
  {
    hide Record, FlatAll, After, MemberOf, Flat, OpenedIn, Lay, Gathered;
    var was, inside := Get(s.structs, name), OpensInto(s, depth, name);
    if items == [] {
      NothingAfter(s, depth);
      LayNone(was);
    } else {
      FlatAllSplits(s, items, depth);
      BareSubtree(s, items[0], depth, name);
      var t := After(s, Flat(items[0], depth));
      assert OpensInto(t, depth, name) == inside;
      var first := OpenedIn(items[0], name);
      if inside && items[0].tag == MEMBER {
        RichSubtrees(t, items[1..], depth, name);
        LayMember(was, items);
      } else if Gathered(first) != [] {
        LayRich(was, first, Joining(s, items[1..], depth, name));
        RichSubtrees(t, items[1..], depth, name);
        assert Joining(s, items, depth, name) == Joining(s, items[1..], depth, name) by { NotMember(items, inside); }
      } else {
        LayMore(was, first, OpenedAmong(items[1..], name, inside), Joining(s, items[1..], depth, name));
        BareSubtrees(t, items[1..], depth, name);
        assert Joining(s, items, depth, name) == Joining(s, items[1..], depth, name) by { NotMember(items, inside); }
      }
    }
  }

  lemma LayMember(x: Option<Struct>, items: seq<Item>)
    requires items != [] && items[0].tag == MEMBER
    ensures WithMembers(WithMembers(x, [MemberOf(items[0].vals)]), DirectMembers(items[1..])) == Lay(x, [], DirectMembers(items))
  {
    WithMore(x, [MemberOf(items[0].vals)], DirectMembers(items[1..]));
  }

  lemma LayRich(x: Option<Struct>, defs: seq<Struct>, more: seq<Member>)
    requires Gathered(defs) != []
    ensures Rich(Lay(x, defs, [])) && WithMembers(Lay(x, defs, []), more) == Lay(x, defs, more)
  {
    assert Gathered(defs) + [] == Gathered(defs);
  }

  lemma NotMember(items: seq<Item>, inside: bool)
    requires items != [] && !(inside && items[0].tag == MEMBER)
    ensures inside ==> DirectMembers(items) == DirectMembers(items[1..])
  {
    if inside { assert [] + DirectMembers(items[1..]) == DirectMembers(items[1..]); }
  }

  /** For any forest, a struct's record has the size of the last definition reached before
      a member is read, and the direct members of all those reached before. */
  lemma StructsAreMerged(items: seq<Item>, name: Value)
    ensures Get(After(START, FlatAll(items, 0)).structs, name) == Merged(OpenedAmong(items, name, false))
  {
    BareSubtrees(START, items, 0, name);
    var defs := OpenedAmong(items, name, false);
    assert Gathered(defs) + [] == Gathered(defs);
  }

  // ----- when the record is one definition ------------------------------------------------

  /** Definitions are opened in order, and all of them if none has members. */
  lemma {:induction false} OpenedInOrder(item: Item, name: Value)
    ensures OpenedIn(item, name) <= Definitions(item, name)
    ensures Gathered(OpenedIn(item, name)) == [] ==> OpenedIn(item, name) == Definitions(item, name)
    decreases item, 1
  {
    hide OpenedAmong, AllDefinitions, DirectMembers;
    OpenedAmongInOrder(item.kids, name, Defines(item, name));
    var below := OpenedAmong(item.kids, name, Defines(item, name));
    if Defines(item, name) {
      var d := Struct(item.vals[AT_BYTE_SIZE], DirectMembers(item.kids));
      assert ([d] + below)[1..] == below;
    } else {
      assert [] + below == below && [] + AllDefinitions(item.kids, name) == AllDefinitions(item.kids, name);
    }
  }

  lemma {:induction false} OpenedAmongInOrder(items: seq<Item>, name: Value, inside: bool)
    ensures OpenedAmong(items, name, inside) <= AllDefinitions(items, name)
    ensures Gathered(OpenedAmong(items, name, inside)) == [] && (inside ==> DirectMembers(items) == []) ==>
      OpenedAmong(items, name, inside) == AllDefinitions(items, name)
    decreases items, 0
  {
    hide OpenedIn, Definitions, MemberOf;
    if items != [] && !(inside && items[0].tag == MEMBER) {
      OpenedInOrder(items[0], name);
      var first := OpenedIn(items[0], name);
      if Gathered(first) == [] {
        OpenedAmongInOrder(items[1..], name, inside);
        GatheredMore(first, OpenedAmong(items[1..], name, inside));
        NotMember(items, inside);
      }
    }
  }

  /** The first definition with members stands even if more definitions follow. */
  lemma {:induction false} RichestStands(a: seq<Struct>, b: seq<Struct>)
    requires Gathered(a) != []
    ensures Richest(a + b) == Richest(a)
    decreases |a|
  {
    if a[0].members == [] {
      assert Gathered(a[1..]) + [] == Gathered(a[1..]);
      assert |a| > 1 && (a + b)[1..] == a[1..] + b;
      RichestStands(a[1..], b);
    }
  }

  lemma {:induction false} AllBare(defs: seq<Struct>)
    ensures Gathered(defs) == [] <==> forall k :: 0 <= k < |defs| ==> defs[k].members == []
    decreases |defs|
  {
    if defs != [] {
      AllBare(defs[1..]);
      assert forall k :: 0 < k < |defs| ==> defs[k] == defs[1..][k - 1];
      assert forall k :: 0 <= k < |defs| - 1 ==> defs[1..][k] == defs[k + 1];
    }
  }

  lemma FirstRich(defs: seq<Struct>)
    requires defs != [] && defs[0].members != []
    ensures Merged(defs) == Richest(defs) <==> OneRich(defs)
  {
    AllBare(defs[1..]);
    var d, last := defs[0], defs[|defs| - 1];
    assert |Gathered(defs)| == |Gathered(defs[1..])| + |d.members|;
    assert [] + d.members == d.members;
    if OneRich(defs) {
      assert forall k :: 0 <= k < |defs| - 1 ==> defs[1..][k] == defs[k + 1];
    } else if Gathered(defs[1..]) == [] {
      assert forall k :: 0 < k < |defs| ==> defs[k] == defs[1..][k - 1];
      assert last.size != d.size;
    }
  }

  lemma LaterRich(defs: seq<Struct>)
    requires |defs| > 1 && defs[0].members == []
    ensures OneRich(defs) <==> OneRich(defs[1..])
  {
    var rest := defs[1..];
    assert rest[|rest| - 1] == defs[|defs| - 1];
    if OneRich(rest) {
      forall i, j | 0 <= i < |defs| && 0 <= j < |defs| && defs[i].members != []
        ensures (defs[j].members != [] ==> i == j) && defs[|defs| - 1].size == defs[i].size
      {
        assert rest[i - 1] == defs[i];
        if j > 0 { assert rest[j - 1] == defs[j]; }
      }
    }
    if OneRich(defs) {
      forall i, j | 0 <= i < |rest| && 0 <= j < |rest| && rest[i].members != []
        ensures (rest[j].members != [] ==> i == j) && rest[|rest| - 1].size == rest[i].size
      {
        assert rest[i] == defs[i + 1] && rest[j] == defs[j + 1];
      }
    }
  }

  lemma {:induction false} MergedIsRichest(defs: seq<Struct>)
    ensures Merged(defs) == Richest(defs) <==> OneRich(defs)
    decreases |defs|
  {
    if defs == [] {
    } else if defs[0].members != [] {
      FirstRich(defs);
    } else if |defs| == 1 {
      assert defs[1..] == [];
    } else {
      MergedIsRichest(defs[1..]);
      LaterRich(defs);
      assert Gathered(defs[1..]) + [] == Gathered(defs[1..]);
    }
  }

  /** Over any forest a struct is its richest definition, with that one's size and direct
      members, if and only if at most one of the definitions reached before a member is
      read has members, and the last of them has its size. */
  lemma StructsAreRichestIff(items: seq<Item>, name: Value)
    ensures Get(After(START, FlatAll(items, 0)).structs, name) == Richest(AllDefinitions(items, name))
            <==> OneRich(OpenedAmong(items, name, false))
  {
    hide After, FlatAll, OneRich, Merged, Richest, OpenedAmong, AllDefinitions;
    var defs := OpenedAmong(items, name, false);
    StructsAreMerged(items, name);
    MergedIsRichest(defs);
    OpenedAmongInOrder(items, name, false);
    if Gathered(defs) != [] {
      var rest := AllDefinitions(items, name)[|defs|..];
      assert AllDefinitions(items, name) == defs + rest;
      RichestStands(defs, rest);
    }
  }

  /** Only the last of the definitions has members, if any has. */
  ghost predicate LastRich(defs: seq<Struct>) {
    forall k :: 0 <= k < |defs| - 1 ==> defs[k].members == []
  }

  lemma {:induction false} NotNestedLastRich(item: Item, name: Value)
    requires NotNested(item, name)
    ensures LastRich(OpenedIn(item, name))
    decreases item, 1
  {
    hide OpenedAmong, AllDefinitions, DirectMembers;
    if Defines(item, name) {
      OpenedAmongInOrder(item.kids, name, true);
    } else {
      NoneNestedLastRich(item.kids, name);
      var below := OpenedAmong(item.kids, name, false);
      assert [] + below == below;
    }
  }

  lemma {:induction false} NoneNestedLastRich(items: seq<Item>, name: Value)
    requires NoneNested(items, name)
    ensures LastRich(OpenedAmong(items, name, false))
    decreases items, 0
  {
    hide OpenedIn, NotNested;
    if items != [] {
      NotNestedLastRich(items[0], name);
      NoneNestedLastRich(items[1..], name);
      var first, rest := OpenedIn(items[0], name), OpenedAmong(items[1..], name, false);
      AllBare(first);
      if Gathered(first) == [] {
        assert forall k :: 0 <= k < |first + rest| ==> (first + rest)[k] == if k < |first| then first[k] else rest[k - |first|];
      }
    }
  }

  /** It is enough that no definition of the name stands inside another. */
  lemma StructsAreRichest(items: seq<Item>, name: Value)
    requires NoneNested(items, name)
    ensures Get(After(START, FlatAll(items, 0)).structs, name) == Richest(AllDefinitions(items, name))
  {
    hide After, FlatAll, OpenedAmong, AllDefinitions, Richest;
    NoneNestedLastRich(items, name);
    StructsAreRichestIff(items, name);
  }

  /** A name defined once is its definition. */
  lemma DistinctStructIsExact(items: seq<Item>, name: Value, size: Value, members: seq<Member>)
    requires AllDefinitions(items, name) == [Struct(size, members)]
    ensures Get(After(START, FlatAll(items, 0)).structs, name) == Some(Struct(size, members))
  {
    hide After, FlatAll, OpenedAmong, AllDefinitions;
    OpenedAmongInOrder(items, name, false);
    assert OpenedAmong(items, name, false) == [Struct(size, members)];
    StructsAreRichestIff(items, name);
  }

  // ----- records and the entries they come from ------------------------------------------

  /** A location that gives an offset: the number itself, or an expression that begins by
      adding a constant (operation 0x23, then the constant as of section 7.6). */
  ghost predicate LocatedAt(location: Option<Value>, n: int) {
    || location == Some(Num(n))
    || (n >= 0 && exists rest: Bytes :: location == Some(Block([0x23] + EncodeUleb(n) + rest)))
  }

  predicate Unlocated(location: Option<Value>) {
    match location
    case Some(Num(_)) => false
    case Some(Block(b)) => b == [] || b[0] != 0x23
    case _ => true
  }

  /** A member's offset is the one its location gives, and none if it gives none. */
  lemma OffsetIsLocation(location: Option<Value>, n: int)
    ensures LocatedAt(location, n) ==> MemberOffset(location) == Some(n) && Readable(location)
    ensures Unlocated(location) ==> MemberOffset(location) == None && Readable(location)
  {
    hide EncodeUleb, DecodeUleb;
    if LocatedAt(location, n) && location != Some(Num(n)) {
      var rest: Bytes :| location == Some(Block([0x23] + EncodeUleb(n) + rest));
      ConstantIsRead(n, rest);
    }
  }

  lemma ConstantIsRead(n: nat, rest: Bytes)
    ensures DecodeUleb([0x23] + EncodeUleb(n) + rest, 1) == Some((n, 1 + |EncodeUleb(n)|))
  {
    hide EncodeUleb, DecodeUleb;
    var b := [0x23] + EncodeUleb(n) + rest;
    AtAll(b);
    assert b == [0x23] + (EncodeUleb(n) + rest);
    AtSplit(b, 0, [0x23], EncodeUleb(n) + rest);
    AtSplit(b, 1, EncodeUleb(n), rest);
    UlebRoundTrip(b, 1, n);
  }

  /** The member is what the entry says: its name, its type and the offset of its location. */
  ghost predicate Describes(m: Member, item: Item) {
    && item.tag == 0x0d
    && m.name == (if 0x03 in item.vals then Some(item.vals[0x03]) else None)
    && m.typ == (if 0x49 in item.vals then Some(item.vals[0x49]) else None)
    && var location := if 0x38 in item.vals then Some(item.vals[0x38]) else None;
       && (forall n :: LocatedAt(location, n) ==> m.offset == Some(n))
       && (Unlocated(location) ==> m.offset == None)
  }

  function Tagged(items: seq<Item>, tag: nat): seq<Item> {
    if items == [] then [] else (if items[0].tag == tag then [items[0]] else []) + Tagged(items[1..], tag)
  }

  lemma {:induction false} MembersDescribe(kids: seq<Item>)
    ensures |DirectMembers(kids)| == |Tagged(kids, 0x0d)|
    ensures forall k :: 0 <= k < |DirectMembers(kids)| ==> Describes(DirectMembers(kids)[k], Tagged(kids, 0x0d)[k])
    decreases |kids|
  {
    if kids != [] {
      hide Describes;
      MembersDescribe(kids[1..]);
      if kids[0].tag == MEMBER { MemberDescribes(kids[0]); }
    }
  }

  lemma MemberDescribes(item: Item)
    requires item.tag == MEMBER
    ensures Describes(MemberOf(item.vals), item)
  {
    hide MemberOffset, LocatedAt;
    var location := Attr(item.vals, AT_MEMBER_LOCATION);
    forall n ensures LocatedAt(location, n) ==> MemberOffset(location) == Some(n) {
      OffsetIsLocation(location, n);
    }
    OffsetIsLocation(location, 0);
  }

  /** The struct has the entry's size and exactly its direct members, in order. */
  ghost predicate RecordOf(x: Option<Struct>, item: Item, name: Value) {
    && item.tag in {0x13, 0x17} && 0x03 in item.vals && item.vals[0x03] == name && 0x0b in item.vals
    && x.Some? && x.value.size == item.vals[0x0b]
    && |x.value.members| == |Tagged(item.kids, 0x0d)|
    && forall k :: 0 <= k < |x.value.members| ==> Describes(x.value.members[k], Tagged(item.kids, 0x0d)[k])
  }

  /** Which entries define a name: structs and unions that have it, not empty, and a size. */
  lemma DefinesByTag(item: Item, name: Value)
    ensures Defines(item, name) <==>
      && item.tag in {0x13, 0x17} && 0x03 in item.vals && item.vals[0x03] == name && 0x0b in item.vals
      && name != Num(0) && name != Str([]) && name != Block([])
    ensures Declares(item, name) <==>
      && item.tag == 0x2e && 0x03 in item.vals && item.vals[0x03] == name
      && name != Num(0) && name != Str([]) && name != Block([])
  {
  }

  /** The entries that define a name below an item and the item itself, in preorder. */
  function Defining(item: Item, name: Value): seq<Item>
    decreases item, 1
  {
    (if Defines(item, name) then [item] else []) + DefiningAmong(item.kids, name)
  }

  function DefiningAmong(items: seq<Item>, name: Value): seq<Item>
    decreases items, 0
  {
    if items == [] then [] else Defining(items[0], name) + DefiningAmong(items[1..], name)
  }

  ghost predicate Correspond(defs: seq<Struct>, items: seq<Item>, name: Value) {
    |defs| == |items| && forall k :: 0 <= k < |defs| ==> RecordOf(Some(defs[k]), items[k], name)
  }

  lemma {:induction false} DefinitionsCorrespond(item: Item, name: Value)
    ensures Correspond(Definitions(item, name), Defining(item, name), name)
    decreases item, 1
  {
    hide RecordOf;
    DefinitionsAmongCorrespond(item.kids, name);
    if Defines(item, name) { DefinitionIsItsEntry(item, name); }
  }

  lemma DefinitionIsItsEntry(item: Item, name: Value)
    requires Defines(item, name)
    ensures RecordOf(Some(Struct(item.vals[AT_BYTE_SIZE], DirectMembers(item.kids))), item, name)
  {
    hide Describes, DirectMembers, Tagged;
    MembersDescribe(item.kids);
  }

  lemma {:induction false} DefinitionsAmongCorrespond(items: seq<Item>, name: Value)
    ensures Correspond(AllDefinitions(items, name), DefiningAmong(items, name), name)
    decreases items, 0
  {
    hide RecordOf, Definitions, Defining;
    if items != [] {
      DefinitionsCorrespond(items[0], name);
      DefinitionsAmongCorrespond(items[1..], name);
    }
  }

  /** A struct defined by one entry has its size and its members at the offsets that their
      locations give. */
  lemma DistinctStructIsItsEntry(items: seq<Item>, name: Value, item: Item)
    requires DefiningAmong(items, name) == [item]
    ensures RecordOf(Get(After(START, FlatAll(items, 0)).structs, name), item, name)
  {
    hide After, FlatAll, AllDefinitions, DefiningAmong, RecordOf;
    DefinitionsAmongCorrespond(items, name);
    var d := AllDefinitions(items, name)[0];
    assert AllDefinitions(items, name) == [Struct(d.size, d.members)];
    DistinctStructIsExact(items, name, d.size, d.members);
  }

  // ----- why the nesting matters -------------------------------------------------------

  const NEST_NAME := Str([65])
  const NEST_VALS: map<nat, Value> := map[AT_NAME := NEST_NAME, AT_BYTE_SIZE := Num(4)]
  const NEST_B := Item(25, MEMBER, map[AT_NAME := Str([66])], [])
  const NEST_C := Item(30, MEMBER, map[AT_NAME := Str([67])], [])
  const NEST_INNER := Item(20, STRUCTURE_TYPE, NEST_VALS, [NEST_B])
  const NEST_OUTER := Item(11, STRUCTURE_TYPE, NEST_VALS, [NEST_INNER, NEST_C])

  lemma NestedDefinitions()
    ensures var b, c := MemberOf(NEST_B.vals), MemberOf(NEST_C.vals);
      && OpenedIn(NEST_OUTER, NEST_NAME) == [Struct(Num(4), [c]), Struct(Num(4), [b])]
      && AllDefinitions(NEST_OUTER.kids, NEST_NAME) == [Struct(Num(4), [b])]
  {
    hide MemberOf;
    var b, c := MemberOf(NEST_B.vals), MemberOf(NEST_C.vals);
    assert [NEST_B][1..] == [] && [NEST_INNER, NEST_C][1..] == [NEST_C] && [NEST_C][1..] == [];
    assert DirectMembers([NEST_B]) == [b] + DirectMembers([]) == [b];
    assert DirectMembers([NEST_C]) == [c] + DirectMembers([]) == [c];
    assert DirectMembers([NEST_INNER, NEST_C]) == [] + DirectMembers([NEST_C]) == [c];
    assert Defines(NEST_INNER, NEST_NAME) && Defines(NEST_OUTER, NEST_NAME) && NEST_VALS[AT_BYTE_SIZE] == Num(4);
    assert NEST_INNER.kids == [NEST_B] && NEST_OUTER.kids == [NEST_INNER, NEST_C];
    NestedInner(b);
    assert [Struct(Num(4), [b])][1..] == [];
    assert Gathered([Struct(Num(4), [b])]) == [] + [b];
    assert OpenedAmong([NEST_INNER, NEST_C], NEST_NAME, true) == [Struct(Num(4), [b])];
  }

  lemma NestedInner(b: Member)
    requires b == MemberOf(NEST_B.vals) && DirectMembers([NEST_B]) == [b]
    ensures OpenedIn(NEST_INNER, NEST_NAME) == [Struct(Num(4), [b])] == Definitions(NEST_INNER, NEST_NAME)
    ensures AllDefinitions([NEST_INNER, NEST_C], NEST_NAME) == [Struct(Num(4), [b])]
  {
    hide MemberOf, DirectMembers;
    assert Defines(NEST_INNER, NEST_NAME) && NEST_INNER.kids == [NEST_B] && NEST_VALS[AT_BYTE_SIZE] == Num(4);
    assert OpenedAmong([NEST_B], NEST_NAME, true) == [];
    assert [NEST_B][1..] == [] && [NEST_INNER, NEST_C][1..] == [NEST_C] && [NEST_C][1..] == [];
    assert NEST_B.kids == NEST_C.kids == [];
    assert AllDefinitions([NEST_B], NEST_NAME) == [] && AllDefinitions([NEST_C], NEST_NAME) == [];
    assert Definitions(NEST_INNER, NEST_NAME) == [Struct(Num(4), [b])] + [];
  }

  /** A definition inside another of its own name lends it its members: the record has two
      where each definition has one. */
  lemma NestedNamesMerge()
    ensures var s := After(START, FlatAll([NEST_OUTER], 0));
      NEST_NAME in s.structs && s.structs[NEST_NAME].members == [MemberOf(NEST_B.vals), MemberOf(NEST_C.vals)]
    ensures !OneRich(OpenedAmong([NEST_OUTER], NEST_NAME, false)) && !NotNested(NEST_OUTER, NEST_NAME)
  {
    hide FlatAll, After, MemberOf, OpenedIn;
    NestedDefinitions();
    var b, c := MemberOf(NEST_B.vals), MemberOf(NEST_C.vals);
    var defs := [Struct(Num(4), [c]), Struct(Num(4), [b])];
    assert defs[1..] == [Struct(Num(4), [b])] && defs[1..][1..] == [];
    assert Gathered([Struct(Num(4), [b])]) == [] + [b] == [b] && defs[0].members == [c];
    assert Gathered(defs) == Gathered(defs[1..]) + [c];
    StructsAreMerged([NEST_OUTER], NEST_NAME);
    assert OpenedAmong([NEST_OUTER], NEST_NAME, false) == defs;
    assert defs[0].members != [] && defs[1].members != [];
  }

  // ----- prototypes ------------------------------------------------------------------

  function WithParams(x: Option<Func>, more: seq<Option<Value>>): Option<Func> {
    match x
    case None => None
    case Some(f) => Some(Func(f.ret, f.params + more))
  }

  predicate OpensCall(s: State, depth: int, name: Value) {
    OpenAt(s, depth - 1) == Some(FuncRef(name))
  }

  ghost predicate CallReady(s: State, name: Value) {
    forall k {:trigger OpenAt(s, k)} :: OpenAt(s, k) == Some(FuncRef(name)) ==> name in s.funcs
  }

  predicate Declares(item: Item, name: Value) {
    item.tag == SUBPROGRAM && Named(item.vals, name)
  }

  lemma RecordCallTouches(s: State, die: Die, name: Value)
    requires CallReady(s, name)
    ensures CallReady(Record(s, die), name) && SameBelow(s, Record(s, die), die.depth)
  {
    var t := Record(s, die);
    if OpenAt(t, die.depth) == Some(FuncRef(name)) { RecordedCallOpens(s, die, name); }
    hide Record;
    forall k ensures OpenAt(t, k) == Some(FuncRef(name)) ==> name in t.funcs {
      assert OpenAt(s, k) == Some(FuncRef(name)) ==> name in s.funcs;
    }
  }

  lemma RecordedCallOpens(s: State, die: Die, name: Value)
    requires OpenAt(Record(s, die), die.depth) == Some(FuncRef(name))
    ensures name in Record(s, die).funcs
  {
    hide RecordAggregate, RecordMember, RecordParameter, Truthy;
  }

  lemma RecordDeclares(s: State, item: Item, depth: int, name: Value)
    ensures var t := Record(s, Die(item.offset, item.tag, item.vals, depth));
      OpensCall(t, depth + 1, name) <==> Declares(item, name) && name !in s.funcs
  {
    hide RecordAggregate, RecordMember, RecordParameter, Truthy;
  }

  lemma RecordsCall(s: State, item: Item, depth: int, name: Value)
    requires CallReady(s, name)
    ensures var t := Record(s, Die(item.offset, item.tag, item.vals, depth));
      Get(t.funcs, name) ==
        if Declares(item, name) && name !in s.funcs then Some(Func(Attr(item.vals, AT_TYPE), []))
        else if OpensCall(s, depth, name) && item.tag == FORMAL_PARAMETER
        then WithParams(Get(s.funcs, name), [Attr(item.vals, AT_TYPE)])
        else Get(s.funcs, name)
  {
    hide RecordAggregate, RecordMember, Truthy;
    assert OpenAt(s, depth - 1) == Some(FuncRef(name)) ==> name in s.funcs;
    if item.tag == FORMAL_PARAMETER { hide RecordSubprogram; } else { hide RecordParameter; }
  }

  /** The first declaration stands, and every later one opens nothing. */
  lemma RecordCall(s: State, item: Item, depth: int, name: Value)
    requires CallReady(s, name)
    ensures var t := Record(s, Die(item.offset, item.tag, item.vals, depth));
      && CallReady(t, name) && SameBelow(s, t, depth)
      && (OpensCall(t, depth + 1, name) <==> Declares(item, name) && name !in s.funcs)
      && Get(t.funcs, name) ==
           if Declares(item, name) && name !in s.funcs then Some(Func(Attr(item.vals, AT_TYPE), []))
           else if OpensCall(s, depth, name) && item.tag == FORMAL_PARAMETER
           then WithParams(Get(s.funcs, name), [Attr(item.vals, AT_TYPE)])
           else Get(s.funcs, name)
  {
    hide Record, SameBelow, CallReady;
    RecordCallTouches(s, Die(item.offset, item.tag, item.vals, depth), name);
    RecordDeclares(s, item, depth, name);
    RecordsCall(s, item, depth, name);
  }

  /** Once a name is declared, a subtree adds its own parameter at most. */
  lemma {:induction false} LaterSubtree(s: State, item: Item, depth: int, name: Value)
    requires CallReady(s, name) && name in s.funcs
    ensures var t := After(s, Flat(item, depth));
      && CallReady(t, name) && SameBelow(s, t, depth) && name in t.funcs
      && Get(t.funcs, name) == if OpensCall(s, depth, name) && item.tag == FORMAL_PARAMETER
                               then WithParams(Get(s.funcs, name), [Attr(item.vals, AT_TYPE)])
                               else Get(s.funcs, name)
    decreases item, 1
  {
    hide Record, FlatAll, After;
    FlatSplits(s, item, depth);
    RecordCall(s, item, depth, name);
    LaterSubtrees(Record(s, Die(item.offset, item.tag, item.vals, depth)), item.kids, depth + 1, name);
  }

  lemma WithMoreParams(x: Option<Func>, a: seq<Option<Value>>, b: seq<Option<Value>>)
    ensures WithParams(WithParams(x, a), b) == WithParams(x, a + b)
    ensures WithParams(x, []) == x
  {
    if x.Some? {
      assert x.value.params + a + b == x.value.params + (a + b);
      assert x.value.params + [] == x.value.params;
    }
  }

  lemma {:induction false} LaterSubtrees(s: State, items: seq<Item>, depth: int, name: Value)
    requires CallReady(s, name) && name in s.funcs
    ensures var t := After(s, FlatAll(items, depth));
      && CallReady(t, name) && SameBelow(s, t, depth) && name in t.funcs
      && Get(t.funcs, name) == if OpensCall(s, depth, name)
                               then WithParams(Get(s.funcs, name), DirectParams(items))
                               else Get(s.funcs, name)
    decreases items, 0
  {
    hide Record, FlatAll, After, Flat;
    if items == [] {
      NothingAfter(s, depth);
      WithMoreParams(Get(s.funcs, name), [], []);
    } else {
      FlatAllSplits(s, items, depth);
      LaterSubtree(s, items[0], depth, name);
      LaterSubtrees(After(s, Flat(items[0], depth)), items[1..], depth, name);
      var here := if items[0].tag == FORMAL_PARAMETER then [Attr(items[0].vals, AT_TYPE)] else [];
      WithMoreParams(Get(s.funcs, name), here, DirectParams(items[1..]));
    }
  }

  function First(fs: seq<Func>): Option<Func> {
    if fs == [] then None else Some(fs[0])
  }

  /** What a subtree does for a name not declared before it. */
  lemma {:induction false} SubtreeDeclaresFirst(s: State, item: Item, depth: int, name: Value)
    requires CallReady(s, name) && name !in s.funcs
    ensures var t := After(s, Flat(item, depth));
      CallReady(t, name) && SameBelow(s, t, depth) && Get(t.funcs, name) == First(Prototypes(item, name))
    decreases item, 1
  {
    hide Record, FlatAll, After;
    FlatSplits(s, item, depth);
    RecordCall(s, item, depth, name);
    var t := Record(s, Die(item.offset, item.tag, item.vals, depth));
    if Declares(item, name) {
      LaterSubtrees(t, item.kids, depth + 1, name);
      assert [] + DirectParams(item.kids) == DirectParams(item.kids);
    } else {
      assert OpenAt(s, depth - 1) != Some(FuncRef(name));
      SubtreesDeclareFirst(t, item.kids, depth + 1, name);
      assert Prototypes(item, name) == AllPrototypes(item.kids, name);
    }
  }

  lemma {:induction false} SubtreesDeclareFirst(s: State, items: seq<Item>, depth: int, name: Value)
    requires CallReady(s, name) && name !in s.funcs
    ensures var t := After(s, FlatAll(items, depth));
      CallReady(t, name) && SameBelow(s, t, depth) && Get(t.funcs, name) == First(AllPrototypes(items, name))
    decreases items, 0
  {
    hide Record, FlatAll, After, Flat, Prototypes;
    if items == [] {
      NothingAfter(s, depth);
    } else {
      FlatAllSplits(s, items, depth);
      SubtreeDeclaresFirst(s, items[0], depth, name);
      var t := After(s, Flat(items[0], depth));
      if name in t.funcs {
        assert OpenAt(s, depth - 1) != Some(FuncRef(name));
        assert OpenAt(t, depth - 1) == OpenAt(s, depth - 1);
        LaterSubtrees(t, items[1..], depth, name);
      } else {
        SubtreesDeclareFirst(t, items[1..], depth, name);
      }
    }
  }

  /** Each function gets the return type and exactly the direct parameters, in order, of
      the first declaration of its name. */
  lemma FuncsAreFirst(items: seq<Item>, name: Value)
    ensures Get(After(START, FlatAll(items, 0)).funcs, name) == First(AllPrototypes(items, name))
  {
    SubtreesDeclareFirst(START, items, 0, name);
  }

  ghost predicate FuncOf(x: Option<Func>, item: Item, name: Value) {
    && item.tag == 0x2e && 0x03 in item.vals && item.vals[0x03] == name
    && x.Some? && x.value.ret == (if 0x49 in item.vals then Some(item.vals[0x49]) else None)
    && var params := Tagged(item.kids, 0x05);
       && |x.value.params| == |params|
       && forall k :: 0 <= k < |params| ==>
            x.value.params[k] == if 0x49 in params[k].vals then Some(params[k].vals[0x49]) else None
  }

  lemma {:induction false} ParamsDescribe(kids: seq<Item>)
    ensures var params := Tagged(kids, 0x05);
      && |DirectParams(kids)| == |params|
      && forall k :: 0 <= k < |params| ==>
           DirectParams(kids)[k] == if 0x49 in params[k].vals then Some(params[k].vals[0x49]) else None
    decreases |kids|
  {
    if kids != [] { ParamsDescribe(kids[1..]); }
  }

  /** The entries that declare a name, in preorder. */
  function Declaring(item: Item, name: Value): seq<Item>
    decreases item, 1
  {
    (if Declares(item, name) then [item] else []) + DeclaringAmong(item.kids, name)
  }

  function DeclaringAmong(items: seq<Item>, name: Value): seq<Item>
    decreases items, 0
  {
    if items == [] then [] else Declaring(items[0], name) + DeclaringAmong(items[1..], name)
  }

  ghost predicate PrototypesMatch(fs: seq<Func>, items: seq<Item>, name: Value) {
    |fs| == |items| && forall k :: 0 <= k < |fs| ==> FuncOf(Some(fs[k]), items[k], name)
  }

  lemma {:induction false} PrototypesCorrespond(item: Item, name: Value)
    ensures PrototypesMatch(Prototypes(item, name), Declaring(item, name), name)
    decreases item, 1
  {
    hide FuncOf, DirectParams;
    PrototypesAmongCorrespond(item.kids, name);
    if Declares(item, name) { PrototypeIsItsEntry(item, name); }
  }

  lemma PrototypeIsItsEntry(item: Item, name: Value)
    requires Declares(item, name)
    ensures FuncOf(Some(Func(Attr(item.vals, AT_TYPE), DirectParams(item.kids))), item, name)
  {
    hide DirectParams, Tagged;
    ParamsDescribe(item.kids);
  }

  lemma {:induction false} PrototypesAmongCorrespond(items: seq<Item>, name: Value)
    ensures PrototypesMatch(AllPrototypes(items, name), DeclaringAmong(items, name), name)
    decreases items, 0
  {
    hide FuncOf, Prototypes, Declaring;
    if items != [] {
      PrototypesCorrespond(items[0], name);
      PrototypesAmongCorrespond(items[1..], name);
    }
  }

  /** A function is its first declaring entry: the entry's type and its parameters' types. */
  lemma FuncIsItsEntry(items: seq<Item>, name: Value)
    ensures var x := Get(After(START, FlatAll(items, 0)).funcs, name);
      if DeclaringAmong(items, name) == [] then x == None else FuncOf(x, DeclaringAmong(items, name)[0], name)
  {
    hide After, FlatAll, AllPrototypes, DeclaringAmong, FuncOf;
    PrototypesAmongCorrespond(items, name);
    FuncsAreFirst(items, name);
  }

  /** From the printed sections of any list of units back to their structs and functions. */
  lemma PrintedAbiIsExact(abbrev: Bytes, dstr: Bytes, units: seq<UnitTree>, name: Value)
    requires InfoFits(units, 0, abbrev, dstr)
    ensures var items := InfoItems(units, 0);
      var s := After(START, WalkAll(PrintInfo(units, 0), abbrev, dstr, 0).dies);
      && Get(s.funcs, name) == First(AllPrototypes(items, name))
      && Get(s.structs, name) == Merged(OpenedAmong(items, name, false))
      && (Get(s.structs, name) == Richest(AllDefinitions(items, name)) <==> OneRich(OpenedAmong(items, name, false)))
      && (|DefiningAmong(items, name)| == 1 ==> RecordOf(Get(s.structs, name), DefiningAmong(items, name)[0], name))
      && (DeclaringAmong(items, name) != [] ==> FuncOf(Get(s.funcs, name), DeclaringAmong(items, name)[0], name))
  {
    hide After, FlatAll, WalkAll, InfoFits, OneRich, Merged, OpenedAmong, DefiningAmong, DeclaringAmong, RecordOf, FuncOf;
    var defining := DefiningAmong(InfoItems(units, 0), name);
    if |defining| == 1 {
      assert defining == [defining[0]];
      DistinctStructIsItsEntry(InfoItems(units, 0), name, defining[0]);
    }
    FuncIsItsEntry(InfoItems(units, 0), name);
    SectionsRoundTrip(abbrev, dstr, units);
    FuncsAreFirst(InfoItems(units, 0), name);
    StructsAreMerged(InfoItems(units, 0), name);
    StructsAreRichestIff(InfoItems(units, 0), name);
  }
}
