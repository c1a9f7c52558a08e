/** Decoded PPU instructions as the function finder sees them. */
module PpuCode {
  import opened Common

  /** Mnemonics the finder tells apart; Cond is any other branch that is not a call or return. */
  datatype Kind = Bl | Blr | B | Ba | Bctr | Bctrl | Blrl | Rfid | Cond | MflrR0 | StackAlloc | Plain

  /** An instruction with the addresses among its operands. */
  datatype Insn = Insn(addr: nat, kind: Kind, targets: seq<nat>)

  /** The instruction list and the index of each address in it. */
  datatype Code = Code(insns: seq<Insn>, at: map<nat, nat>)

  /** A later instruction at the same address replaces an earlier one in the index. */
  function IndexMap(insns: seq<Insn>): (at: map<nat, nat>)
    ensures forall a :: a in at ==> at[a] < |insns| && insns[at[a]].addr == a
    ensures forall j :: 0 <= j < |insns| ==> insns[j].addr in at
  {
    if insns == [] then map[]
    else
      var last := |insns| - 1;
      IndexMap(insns[..last])[insns[last].addr := last]
  }

  ghost predicate Indexed(code: Code) {
    code.at == IndexMap(code.insns)
  }

  ghost predicate Increasing(insns: seq<Insn>) {
    forall i, j :: 0 <= i < j < |insns| ==> insns[i].addr < insns[j].addr
  }

  method BuildIndex(insns: seq<Insn>) returns (code: Code)
    ensures code.insns == insns && Indexed(code)
  {
    var at: map<nat, nat> := map[];
    for i := 0 to |insns|
      invariant at == IndexMap(insns[..i])
    {
      assert insns[..i + 1][..i] == insns[..i];
      at := at[insns[i].addr := i];
    }
    assert insns[..|insns|] == insns;
    return Code(insns, at);
  }

  function BlTarget(insn: Insn): Option<nat> {
    if insn.kind == Bl && insn.targets != [] then Some(insn.targets[0]) else None
  }

  predicate IsBranch(insn: Insn) {
    insn.kind in {B, Ba, Cond}
  }

  /** An edge within a function: neither a call nor a return. */
  function CfgTarget(insn: Insn): Option<nat> {
    if IsBranch(insn) && insn.targets != [] then Some(insn.targets[0]) else None
  }

  /** Control does not fall through to the next instruction of the block. */
  predicate EndsBlock(insn: Insn) {
    insn.kind in {Blr, B, Ba, Bctr}
  }

  function AllBlTargets(insns: seq<Insn>): set<nat> {
    set j | 0 <= j < |insns| && BlTarget(insns[j]).Some? :: BlTarget(insns[j]).value
  }

  /** The first instructions look like a function's: it saves the link or makes a frame. */
  predicate HasPrologue(code: Code, addr: nat)
    requires Indexed(code)
  {
    addr in code.at
    && var idx := code.at[addr];
       || code.insns[idx].kind in {MflrR0, StackAlloc}
       || (idx + 1 < |code.insns| && code.insns[idx + 1].kind == MflrR0)
       || (idx + 2 < |code.insns| && code.insns[idx + 2].kind == MflrR0)
  }
}
