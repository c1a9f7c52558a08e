/**
 What the live sets mean. A machine runs the statements, calling and returning
 through a stack; the live sets are sound when a register outside them can hold
 anything without any later statement, branch or output noticing.

 The machine is arbitrary except that a statement may depend on and change only
 the registers it mentions. The one rule assumed is the ABI's: across a call r1
 and r80-r127 keep their values, and of the others only the return-live ones mean
 anything to the caller (what the rest hold is a fixed but arbitrary value).
 */
module SpuSoundness {
  import opened SpuFlow

  type Word = int

  type Regs = seq<Word>

  type View = map<Reg, Word>

  /** W is everything outside the register file: local store, channels, the host. */
  datatype Machine<!W> = Machine(
    effect: (nat, View, W) -> (View, W),
    choice: (nat, View, W) -> nat,
    link: nat -> Word,
    leftover: (nat, Reg, W) -> Word)

  datatype Where = At(pc: nat) | Stopped | Returned | Escaped

  datatype Frame = Frame(site: nat, saved: Regs)

  datatype State<W> = State(where: Where, regs: Regs, world: W, stack: seq<Frame>)

  ghost predicate Obeys<W(!new)>(p: Program, m: Machine<W>) {
    forall i: nat, view: View, w: W :: i < |p.stmts| ==>
      && m.effect(i, view, w).0.Keys <= p.stmts[i].uses + Written(p.stmts[i])
      && Written(p.stmts[i]) <= m.effect(i, view, w).0.Keys
  }

  ghost predicate ValidState<W>(p: Program, s: State<W>) {
    && |s.regs| == 128
    && (s.where.At? ==> s.where.pc < |p.stmts|)
    && forall k :: 0 <= k < |s.stack| ==> ValidFrame(p, s.stack[k])
  }

  ghost predicate ValidFrame(p: Program, f: Frame) {
    |f.saved| == 128 && f.site < |p.stmts| && p.stmts[f.site].kind == Call
  }

  function ViewOf(regs: Regs, uses: set<Reg>): (view: View)
    requires |regs| == 128
  {
    map r | r in uses :: regs[r]
  }

  function Apply(regs: Regs, updates: View): (after: Regs)
    requires |regs| == 128
    ensures |after| == 128
    ensures forall r: Reg :: after[r] == if r in updates then updates[r] else regs[r]
  {
    seq(128, r requires 0 <= r < 128 => if r in updates then updates[r] else regs[r])
  }

  function Fall(p: Program, i: nat): Where
    requires i < |p.stmts| == |p.regionOf|
  {
    if FallsThrough(p, i) then At(i + 1) else Stopped
  }

  function Goto(p: Program, address: nat): Where {
    match SuccOf(p, address)
    case To(j) => At(j)
    case Anywhere => Escaped
  }

  /** The way a statement that is neither a call nor a return goes on: the chosen
      target, the fall-through, or nowhere (the taken side of a halt). */
  function Onward(p: Program, i: nat, choice: nat): Where
    requires i < |p.stmts| == |p.regionOf|
  {
    var st := p.stmts[i];
    match st.kind
    case Unknown => Escaped
    case Halt => Stopped
    case Jump => if choice < |st.targets| then Goto(p, st.targets[choice]) else Stopped
    case CondJump => if choice < |st.targets| then Goto(p, st.targets[choice])
                     else if choice == |st.targets| then Fall(p, i) else Stopped
    case Switch => if choice < |st.targets| then Goto(p, st.targets[choice])
                   else if choice == |st.targets| then Fall(p, i) else Stopped
    case _ => Fall(p, i)
  }

  /** The caller's view of the register file after a return to call site f.site. */
  function AfterReturn<W>(p: Program, m: Machine<W>, f: Frame, regs: Regs, w: W): (after: Regs)
    requires ValidFrame(p, f) && |regs| == 128
    ensures |after| == 128
    ensures forall r: Reg :: after[r] ==
              if r !in CALL_KILL then f.saved[r]
              else if r in p.retLive then regs[r] else m.leftover(f.site, r, w)
  {
    seq(128, r requires 0 <= r < 128 =>
      if r !in CALL_KILL then f.saved[r]
      else if r in p.retLive then regs[r] else m.leftover(f.site, r, w))
  }

  function DoReturn<W>(p: Program, m: Machine<W>, regs: Regs, w: W, stack: seq<Frame>): State<W>
    requires |p.regionOf| == |p.stmts| && |regs| == 128
    requires forall k :: 0 <= k < |stack| ==> ValidFrame(p, stack[k])
  {
    if stack == [] then State(Returned, regs, w, [])
    else
      var f := stack[|stack| - 1];
      assert ValidFrame(p, f);
      State(Fall(p, f.site), AfterReturn(p, m, f, regs, w), w, stack[..|stack| - 1])
  }

  function Step<W>(p: Program, m: Machine<W>, s: State<W>): State<W>
    requires WellFormed(p) && ValidState(p, s)
  {
    if !s.where.At? then s
    else
      var i := s.where.pc;
      var st := p.stmts[i];
      assert WellFormedStmt(p, st);
      var view := ViewOf(s.regs, st.uses);
      if st.kind == Call then
        State(Goto(p, st.targets[0]), s.regs[0 := m.link(i)], s.world, s.stack + [Frame(i, s.regs)])
      else
        var (updates, w) := m.effect(i, view, s.world);
        var regs := Apply(s.regs, updates);
        var choice := m.choice(i, view, s.world);
        if st.kind == Ret || (st.kind == CondRet && choice == 0)
        then DoReturn(p, m, regs, w, s.stack)
        else State(Onward(p, i, choice), regs, w, s.stack)
  }

  lemma StepValid<W>(p: Program, m: Machine<W>, s: State<W>)
    requires WellFormed(p) && ValidState(p, s)
    ensures ValidState(p, Step(p, m, s))
  {
    if s.where.At? {
      assert WellFormedStmt(p, p.stmts[s.where.pc]);
    }
  }

  function Run<W>(p: Program, m: Machine<W>, s: State<W>, steps: nat): (after: State<W>)
    requires WellFormed(p) && ValidState(p, s)
    ensures ValidState(p, after)
    decreases steps
  {
    if steps == 0 then s
    else
      var before := Run(p, m, s, steps - 1);
      StepValid(p, m, before);
      Step(p, m, before)
  }

  // ----- agreement ---------------------------------------------------------

  ghost predicate Agree(a: Regs, b: Regs, regs: set<Reg>)
    requires |a| == |b| == 128
  {
    forall r :: r in regs ==> a[r] == b[r]
  }

  /** What must agree where a run stands. A run that stopped reads nothing more. */
  ghost function Observed(p: Program, live: Live, where: Where): set<Reg>
    requires where.At? ==> where.pc < |live|
  {
    match where
    case At(i) => live[i]
    case Stopped => {}
    case Returned => p.retLive
    case Escaped => ALL_REGS
  }

  ghost predicate FramesAgree(p: Program, live: Live, a: Frame, b: Frame)
    requires |live| == |p.stmts| == |p.regionOf|
  {
    && ValidFrame(p, a) && ValidFrame(p, b) && a.site == b.site
    && Agree(a.saved, b.saved, Observed(p, live, Fall(p, a.site)) - CALL_KILL)
  }

  /** The two runs stand at the same place with the same world, and agree on every
      register that may still be read, here or after any pending return. */
  ghost predicate Indistinguishable<W>(p: Program, live: Live, a: State<W>, b: State<W>)
    requires |live| == |p.stmts| == |p.regionOf|
  {
    && ValidState(p, a) && ValidState(p, b)
    && a.where == b.where && a.world == b.world
    && Agree(a.regs, b.regs, Observed(p, live, a.where))
    && |a.stack| == |b.stack|
    && forall k :: 0 <= k < |a.stack| ==> FramesAgree(p, live, a.stack[k], b.stack[k])
  }

  lemma SuccLive(p: Program, live: Live, i: nat, where: Where)
    requires Solution(p, live) && i < |p.stmts|
    requires where.Stopped? || (exists s :: s in Succs(p, i) && where == if s.To? then At(s.index) else Escaped)
    requires where.At? ==> where.pc < |p.stmts|
    ensures Observed(p, live, where) <= LiveOut(p, live, i)
  {
    if !where.Stopped? {
      var s :| s in Succs(p, i) && where == if s.To? then At(s.index) else Escaped;
      SuccsInRange(p, i, s);
      assert ReachedLive(p, live, i, s) == Observed(p, live, where);
    }
  }

  /** Wherever a statement may go on to, its successors account for it. */
  lemma OnwardIsSuccessor(p: Program, i: nat, choice: nat)
    requires WellFormed(p) && i < |p.stmts|
    requires p.stmts[i].kind !in {Unknown, Halt, Ret}
    ensures var where := Onward(p, i, choice);
      where.Stopped? || exists s :: s in Succs(p, i) && where == if s.To? then At(s.index) else Escaped
  {
    var st := p.stmts[i];
    var where := Onward(p, i, choice);
    var falls := if st.kind in {Op, CondJump, Call, CondRet, Switch} && FallsThrough(p, i) then [To(i + 1)] else [];
    if st.kind in {Jump, CondJump, Switch} && choice < |st.targets| {
      assert Succs(p, i)[|falls| + choice] == SuccOf(p, st.targets[choice]);
    } else if where == At(i + 1) {
      assert Succs(p, i)[0] == To(i + 1);
    }
  }

  lemma ReturnKeepsAgreement<W>(p: Program, m: Machine<W>, live: Live, a: Regs, b: Regs, w: W,
                                sa: seq<Frame>, sb: seq<Frame>)
    requires Solution(p, live) && |a| == |b| == 128 && |sa| == |sb|
    requires forall k :: 0 <= k < |sa| ==> FramesAgree(p, live, sa[k], sb[k])
    requires forall k :: 0 <= k < |sa| ==> ValidFrame(p, sa[k]) && ValidFrame(p, sb[k])
    requires Agree(a, b, p.retLive)
    ensures Indistinguishable(p, live, DoReturn(p, m, a, w, sa), DoReturn(p, m, b, w, sb))
  {
    if sa != [] {
      var top := |sa| - 1;
      assert FramesAgree(p, live, sa[top], sb[top]);
    }
  }

  lemma CallFramesAgree(p: Program, live: Live, i: nat, a: Regs, b: Regs)
    requires Solution(p, live) && i < |p.stmts| && p.stmts[i].kind == Call
    requires |a| == |b| == 128 && Agree(a, b, live[i])
    ensures WellFormedStmt(p, p.stmts[i]) && EntryLive(p, live, p.stmts[i].targets[0]) - {0} <= live[i]
    ensures FramesAgree(p, live, Frame(i, a), Frame(i, b))
  {
    assert WellFormedStmt(p, p.stmts[i]);
    assert live[i] == Transfer(p, live, i);
    if FallsThrough(p, i) {
      assert Succs(p, i)[0] == To(i + 1);
      SuccLive(p, live, i, At(i + 1));
    }
  }

  lemma CallKeepsAgreement<W>(p: Program, m: Machine<W>, live: Live, a: State<W>, b: State<W>)
    requires Solution(p, live) && Indistinguishable(p, live, a, b)
    requires a.where.At? && p.stmts[a.where.pc].kind == Call
    ensures Indistinguishable(p, live, Step(p, m, a), Step(p, m, b))
  {
    hide Transfer, Succs;
    StepValid(p, m, a);
    StepValid(p, m, b);
    CallFramesAgree(p, live, a.where.pc, a.regs, b.regs);
  }

  lemma EffectKeepsAgreement<W(!new)>(p: Program, m: Machine<W>, i: nat, a: Regs, b: Regs, w: W, out: set<Reg>)
    requires i < |p.stmts| && Obeys(p, m) && |a| == |b| == 128
    requires Agree(a, b, p.stmts[i].uses)
    requires Agree(a, b, out - Written(p.stmts[i]))
    ensures ViewOf(a, p.stmts[i].uses) == ViewOf(b, p.stmts[i].uses)
    ensures var updates := m.effect(i, ViewOf(a, p.stmts[i].uses), w).0;
            Agree(Apply(a, updates), Apply(b, updates), out)
  {
    assert ViewOf(a, p.stmts[i].uses) == ViewOf(b, p.stmts[i].uses);
  }

  /** One step keeps two runs indistinguishable. */
  lemma StepKeepsAgreement<W(!new)>(p: Program, m: Machine<W>, live: Live, a: State<W>, b: State<W>)
    requires Solution(p, live) && Obeys(p, m) && Indistinguishable(p, live, a, b)
    ensures Indistinguishable(p, live, Step(p, m, a), Step(p, m, b))
  {
    if !a.where.At? { return; }
    var i := a.where.pc;
    var st := p.stmts[i];
    assert WellFormedStmt(p, st);
    assert live[i] == Transfer(p, live, i);
    if st.kind == Call {
      CallKeepsAgreement(p, m, live, a, b);
      return;
    }
    StepValid(p, m, a);
    StepValid(p, m, b);
    assert st.uses <= live[i] && ViewOf(a.regs, st.uses) == ViewOf(b.regs, st.uses);
    var view := ViewOf(a.regs, st.uses);
    var choice := m.choice(i, view, a.world);
    var (updates, w) := m.effect(i, view, a.world);
    var ra, rb := Apply(a.regs, updates), Apply(b.regs, updates);
    if st.kind == Ret || (st.kind == CondRet && choice == 0) {
      EffectKeepsAgreement(p, m, i, a.regs, b.regs, a.world, p.retLive);
      ReturnKeepsAgreement(p, m, live, ra, rb, w, a.stack, b.stack);
    } else {
      var where := Onward(p, i, choice);
      if st.kind !in {Unknown, Halt} {
        OnwardIsSuccessor(p, i, choice);
        SuccLive(p, live, i, where);
      }
      EffectKeepsAgreement(p, m, i, a.regs, b.regs, a.world, Observed(p, live, where));
    }
  }

  /** Soundness: two runs that start indistinguishable stay so for ever. */
  lemma {:induction false} RunsStayIndistinguishable<W(!new)>(
      p: Program, m: Machine<W>, live: Live, a: State<W>, b: State<W>, steps: nat)
    requires Solution(p, live) && Obeys(p, m) && Indistinguishable(p, live, a, b)
    ensures Indistinguishable(p, live, Run(p, m, a, steps), Run(p, m, b, steps))
  {
    if steps > 0 {
      RunsStayIndistinguishable(p, m, live, a, b, steps - 1);
      StepKeepsAgreement(p, m, live, Run(p, m, a, steps - 1), Run(p, m, b, steps - 1));
    }
  }

  /** The question the tool answers: at statement i, registers outside live[i] may be
      overwritten with anything. Every later statement, call depth, world and exit is
      the same, and where the run ends by leaving or returning, so is what is read there. */
  lemma StaleRegistersAreNeverRead<W(!new)>(p: Program, m: Machine<W>, live: Live, i: nat,
                                      regs: Regs, other: Regs, w: W, stack: seq<Frame>, steps: nat)
    requires LeastSolution(p, live) && Obeys(p, m) && i < |p.stmts|
    requires ValidState(p, State(At(i), regs, w, stack)) && |other| == 128
    requires forall r :: r in live[i] ==> other[r] == regs[r]
    ensures var a := Run(p, m, State(At(i), regs, w, stack), steps);
            var b := Run(p, m, State(At(i), other, w, stack), steps);
            && a.where == b.where && a.world == b.world
            && |a.stack| == |b.stack| && (forall k :: 0 <= k < |a.stack| ==> a.stack[k].site == b.stack[k].site)
            && (a.where.At? ==> forall r :: r in live[a.where.pc] ==> a.regs[r] == b.regs[r])
            && (a.where == Returned ==> forall r :: r in p.retLive ==> a.regs[r] == b.regs[r])
            && (a.where == Escaped ==> a.regs == b.regs)
  {
    var a, b := State(At(i), regs, w, stack), State(At(i), other, w, stack);
    forall k | 0 <= k < |stack| ensures FramesAgree(p, live, a.stack[k], b.stack[k]) {}
    RunsStayIndistinguishable(p, m, live, a, b, steps);
    var a', b' := Run(p, m, a, steps), Run(p, m, b, steps);
    forall k | 0 <= k < |a'.stack| ensures a'.stack[k].site == b'.stack[k].site {
      assert FramesAgree(p, live, a'.stack[k], b'.stack[k]);
    }
    if a'.where == Escaped {
      forall k | 0 <= k < 128 ensures a'.regs[k] == b'.regs[k] {
        var r: Reg := k;
        assert r in ALL_REGS;
      }
    }
  }
}
