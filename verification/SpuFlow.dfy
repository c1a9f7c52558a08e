/**
 The parsed form of a lifted SPU image, and the equations of its liveness.

 A program is the statement list the analysis works on: every statement has a
 kind, the registers it mentions, the register it fully overwrites (if any) and
 the addresses it may go to. Labels give the statement an address stands for.
 */
module SpuFlow {
  import opened Common

  type Reg = r: nat | r < 128

  datatype Kind = Op | Jump | CondJump | Call | Ret | CondRet | Unknown | Halt | Switch

  datatype Stmt = Stmt(line: nat, kind: Kind, uses: set<Reg>, write: Option<Reg>, targets: seq<nat>)

  datatype Program = Program(stmts: seq<Stmt>, labelAt: map<nat, nat>, regionOf: seq<nat>, retLive: set<Reg>)

  /** Where control may go: to a statement, or to an address with no label. */
  datatype Succ = To(index: nat) | Anywhere

  const ALL_REGS: set<Reg> := set r: Reg | 0 <= r < 128

  /** The registers a callee may leave undefined. */
  const CALL_KILL: set<Reg> := set r: Reg | 0 <= r < 128 && (r == 0 || 2 <= r < 80)

  function SuccOf(p: Program, address: nat): Succ {
    if address in p.labelAt then To(p.labelAt[address]) else Anywhere
  }

  /** What the parser guarantees: only full writes and calls write, a call has one
      target and mentions no register, and a label that is used has a statement. */
  ghost predicate WellFormed(p: Program) {
    && |p.regionOf| == |p.stmts|
    && forall i :: 0 <= i < |p.stmts| ==> WellFormedStmt(p, p.stmts[i])
  }

  ghost predicate WellFormedStmt(p: Program, st: Stmt) {
    && (st.kind == Call ==> |st.targets| == 1 && st.uses == {} && st.write == Some(0))
    && (st.write.Some? ==> st.kind == Op || st.kind == Call)
    && (st.kind in {Jump, CondJump, Switch, Call} ==>
          forall k :: 0 <= k < |st.targets| && SuccOf(p, st.targets[k]).To? ==>
            SuccOf(p, st.targets[k]).index < |p.stmts|)
  }

  predicate FallsThrough(p: Program, i: nat)
    requires i < |p.stmts| == |p.regionOf|
  {
    i + 1 < |p.stmts| && p.regionOf[i + 1] == p.regionOf[i]
  }

  /** The successor list, fall-through first and then the targets in order. */
  function Succs(p: Program, i: nat): seq<Succ>
    requires i < |p.stmts| == |p.regionOf|
  {
    var st := p.stmts[i];
    (if st.kind in {Op, CondJump, Call, CondRet, Switch} && FallsThrough(p, i) then [To(i + 1)] else [])
    + (if st.kind in {Jump, CondJump, Switch}
       then seq(|st.targets|, k requires 0 <= k < |st.targets| => SuccOf(p, st.targets[k]))
       else [])
  }

  lemma SuccsInRange(p: Program, i: nat, s: Succ)
    requires WellFormed(p) && i < |p.stmts| && s in Succs(p, i)
    ensures s.To? ==> s.index < |p.stmts|
  {
    assert WellFormedStmt(p, p.stmts[i]);
  }

  type Live = seq<set<Reg>>

  function LiveAt(live: Live, s: Succ): set<Reg>
    requires s.To? ==> s.index < |live|
  {
    if s.To? then live[s.index] else ALL_REGS
  }

  function EntryLive(p: Program, live: Live, address: nat): set<Reg>
    requires SuccOf(p, address).To? ==> SuccOf(p, address).index < |live|
  {
    LiveAt(live, SuccOf(p, address))
  }

  /** The union of what is live at the successors of statement i. */
  ghost function LiveOut(p: Program, live: Live, i: nat): set<Reg>
    requires WellFormed(p) && i < |p.stmts| == |live|
  {
    set r: Reg, s | s in Succs(p, i) && r in ReachedLive(p, live, i, s) :: r
  }

  ghost function ReachedLive(p: Program, live: Live, i: nat, s: Succ): set<Reg>
    requires WellFormed(p) && i < |p.stmts| == |live| && s in Succs(p, i)
  {
    SuccsInRange(p, i, s);
    LiveAt(live, s)
  }

  /** The transfer equation of statement i. */
  ghost function Transfer(p: Program, live: Live, i: nat): set<Reg>
    requires WellFormed(p) && i < |p.stmts| == |live|
  {
    assert WellFormedStmt(p, p.stmts[i]);
    var st := p.stmts[i];
    var out := LiveOut(p, live, i);
    match st.kind
    case Unknown => ALL_REGS
    case Halt => st.uses
    case Ret => p.retLive + st.uses
    case Call => ((out - CALL_KILL) + EntryLive(p, live, st.targets[0])) - {0}
    case CondRet => (out + p.retLive) - Written(st) + st.uses
    case _ => out - Written(st) + st.uses
  }

  function Written(st: Stmt): set<Reg> {
    if st.write.Some? then {st.write.value} else {}
  }

  /** live satisfies every transfer equation. */
  ghost predicate Solution(p: Program, live: Live) {
    && WellFormed(p) && |live| == |p.stmts|
    && forall i :: 0 <= i < |live| ==> live[i] == Transfer(p, live, i)
  }

  /** live is closed under the transfer equations: no equation adds anything. */
  ghost predicate Closed(p: Program, live: Live) {
    && WellFormed(p) && |live| == |p.stmts|
    && forall i :: 0 <= i < |live| ==> Transfer(p, live, i) <= live[i]
  }

  ghost predicate Below(a: Live, b: Live) {
    |a| == |b| && forall i :: 0 <= i < |a| ==> a[i] <= b[i]
  }

  /** The least closed assignment, which is then also a solution. */
  ghost predicate LeastSolution(p: Program, live: Live) {
    && Solution(p, live)
    && forall other :: Closed(p, other) ==> Below(live, other)
  }

  lemma TransferMonotone(p: Program, a: Live, b: Live, i: nat)
    requires WellFormed(p) && i < |p.stmts| == |a| && Below(a, b)
    ensures Transfer(p, a, i) <= Transfer(p, b, i)
  {
    assert WellFormedStmt(p, p.stmts[i]);
    assert LiveOut(p, a, i) <= LiveOut(p, b, i) by {
      forall r | r in LiveOut(p, a, i) ensures r in LiveOut(p, b, i) {
        var s :| s in Succs(p, i) && r in ReachedLive(p, a, i, s);
        SuccsInRange(p, i, s);
        assert r in ReachedLive(p, b, i, s);
      }
    }
  }
}
