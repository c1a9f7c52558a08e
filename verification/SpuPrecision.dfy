/**
 The other half of soundness: control really goes along the edges of the analysis, and a
 register that some path reads is noticed by some machine. Together with the soundness
 theorem this ties the live sets to what runs do, not to the successor lists themselves.
 */
module SpuPrecision {
  import opened Common
  import opened SpuFlow
  import opened SpuSoundness
  import opened SpuWitness

  function PlaceOf(s: Succ): Where {
    if s.To? then At(s.index) else Escaped
  }

  /** Control falls to the next statement of the same region and nowhere else. */
  lemma FallsToTheNext(p: Program, i: nat, j: nat)
    requires i < |p.stmts| == |p.regionOf|
    ensures Fall(p, i) == At(j) <==> j == i + 1 && j < |p.stmts| && p.regionOf[j] == p.regionOf[i]
    ensures Fall(p, i) == Stopped || Fall(p, i).At?
  {
  }

  /** A choice that takes control along an edge; a conditional return that goes on is one
      that does not return. */
  lemma ChoiceAlong(p: Program, i: nat, s: Succ) returns (choice: nat)
    requires WellFormed(p) && i < |p.stmts| && s in Succs(p, i)
    ensures Onward(p, i, choice) == PlaceOf(s)
    ensures p.stmts[i].kind == CondRet ==> choice != 0
  {
    var st := p.stmts[i];
    var falls := if st.kind in {Op, CondJump, Call, CondRet, Switch} && FallsThrough(p, i) then [To(i + 1)] else [];
    var k :| 0 <= k < |Succs(p, i)| && Succs(p, i)[k] == s;
    if k < |falls| {
      choice := if st.kind == CondRet then 1 else |st.targets|;
    } else {
      choice := k - |falls|;
      assert SuccOf(p, st.targets[choice]) == s;
    }
  }

  ghost predicate Chosen(p: Program, i: nat, choice: nat, s: Succ)
    requires i < |p.stmts| == |p.regionOf|
  {
    Onward(p, i, choice) == PlaceOf(s)
  }

  /** The successors of a statement are exactly the places some choice takes control to;
      an unconditional jump goes to its targets only, and nothing follows a halt, a return
      or an unknown jump. */
  lemma SuccessorsAreWhereControlGoes(p: Program, i: nat, s: Succ)
    requires WellFormed(p) && i < |p.stmts|
    ensures p.stmts[i].kind !in {Unknown, Halt, Ret} ==> (s in Succs(p, i) <==> exists choice: nat :: Chosen(p, i, choice, s))
    ensures p.stmts[i].kind in {Unknown, Halt, Ret} ==> Succs(p, i) == []
    ensures s in Succs(p, i) <==>
      || (p.stmts[i].kind in {Jump, CondJump, Switch}
          && exists k :: 0 <= k < |p.stmts[i].targets| && s == SuccOf(p, p.stmts[i].targets[k]))
      || (p.stmts[i].kind in {Op, CondJump, Call, CondRet, Switch}
          && s == To(i + 1) && i + 1 < |p.stmts| && p.regionOf[i + 1] == p.regionOf[i])
  {
    var st := p.stmts[i];
    var falls := if st.kind in {Op, CondJump, Call, CondRet, Switch} && FallsThrough(p, i) then [To(i + 1)] else [];
    if s in Succs(p, i) {
      var choice := ChoiceAlong(p, i, s);
      assert Chosen(p, i, choice, s);
    }
    if st.kind in {Jump, CondJump, Switch} {
      forall k | 0 <= k < |st.targets| ensures SuccOf(p, st.targets[k]) in Succs(p, i) {
        assert Succs(p, i)[|falls| + k] == SuccOf(p, st.targets[k]);
      }
    }
    if falls != [] { assert Succs(p, i)[0] == To(i + 1); }
    if p.stmts[i].kind !in {Unknown, Halt, Ret} {
      forall choice: nat | Chosen(p, i, choice, s) ensures s in Succs(p, i) {
        OnwardIsSuccessor(p, i, choice);
      }
    }
  }

  /** A return to a call comes back behind it, exactly along the call's edge, with the
      registers the ABI keeps as they were at the call. */
  lemma CallComesBack<W>(p: Program, m: Machine<W>, i: nat, regs: Regs, after: Regs, w: W, stack: seq<Frame>, j: nat, r: Reg)
    requires WellFormed(p) && i < |p.stmts| && p.stmts[i].kind == Call && |regs| == |after| == 128
    requires forall k :: 0 <= k < |stack| ==> ValidFrame(p, stack[k])
    ensures var back := DoReturn(p, m, after, w, stack + [Frame(i, regs)]);
      && (back.where == At(j) <==> To(j) in Succs(p, i))
      && back.stack == stack && (!Kills(p, i, r) ==> back.regs[r] == regs[r])
  {
    var pushed := stack + [Frame(i, regs)];
    assert pushed[|pushed| - 1] == Frame(i, regs) && pushed[..|stack|] == stack;
    assert WellFormedStmt(p, p.stmts[i]);
    if FallsThrough(p, i) { assert Succs(p, i)[0] == To(i + 1); }
  }

  // ----- a machine that writes down what it reads -------------------------------------------

  /** The choices still to make, and the registers each statement has read. */
  datatype Script = Script(choices: seq<nat>, seen: seq<View>)

  function Zeroed(regs: set<Reg>): (view: View)
    ensures view.Keys == regs
  {
    map r | r in regs :: 0
  }

  /** It makes the choices it is given, writes zeros, and notes every value it reads. */
  function Observer(p: Program): Machine<Script> {
    Machine(
      (i: nat, view: View, w: Script) =>
        (if i < |p.stmts| then Zeroed(Written(p.stmts[i])) else map[],
         Script(if w.choices == [] then [] else w.choices[1..], w.seen + [view])),
      (i: nat, view: View, w: Script) => if w.choices == [] then 0 else w.choices[0],
      (i: nat) => 0,
      (i: nat, r: Reg, w: Script) => 0)
  }

  lemma ObserverObeys(p: Program)
    ensures Obeys(p, Observer(p))
  {
  }

  /** A step of a path that enters the callees of the calls it meets. */
  ghost predicate StepsInto(p: Program, i: nat, j: nat, r: Reg)
    requires WellFormed(p) && i < |p.stmts|
  {
    if p.stmts[i].kind == Call then CalleeOf(p, i, r) == Some(To(j)) else To(j) in Succs(p, i) && !Kills(p, i, r)
  }

  ghost predicate Inward(p: Program, path: seq<nat>, r: Reg)
    requires WellFormed(p)
  {
    && |path| > 0
    && (forall k :: 0 <= k < |path| ==> path[k] < |p.stmts|)
    && forall k :: 0 <= k < |path| - 1 ==> StepsInto(p, path[k], path[k + 1], r)
  }

  ghost predicate NoCalls(p: Program, path: seq<nat>)
    requires forall k :: 0 <= k < |path| ==> path[k] < |p.stmts|
  {
    forall k :: 0 <= k < |path| ==> p.stmts[path[k]].kind != Call
  }

  /** The state stands at i with the rest of the script to go and r as it was. */
  ghost predicate Stands(p: Program, s: State<Script>, i: nat, choices: seq<nat>, r: Reg, value: Word) {
    ValidState(p, s) && s.where == At(i) && s.world.choices == choices && s.regs[r] == value
  }

  lemma StepAlong(p: Program, s: State<Script>, i: nat, j: nat, r: Reg, choice: nat, rest: seq<nat>)
    requires WellFormed(p) && i < |p.stmts| && j < |p.stmts| && ValidState(p, s)
    requires StepsInto(p, i, j, r)
    requires p.stmts[i].kind != Call ==>
      Onward(p, i, choice) == At(j) && p.stmts[i].kind != Ret && (p.stmts[i].kind == CondRet ==> choice != 0)
    requires Stands(p, s, i, if p.stmts[i].kind == Call then rest else [choice] + rest, r, s.regs[r])
    ensures Stands(p, Step(p, Observer(p), s), j, rest, r, s.regs[r])
    ensures p.stmts[i].kind != Call ==> Step(p, Observer(p), s).stack == s.stack
  {
    StepValid(p, Observer(p), s);
    assert WellFormedStmt(p, p.stmts[i]);
    if p.stmts[i].kind != Call { assert ([choice] + rest)[1..] == rest; }
  }

  function Begin(i: nat, regs: Regs, choices: seq<nat>): State<Script> {
    State(At(i), regs, Script(choices, []), [])
  }

  /** From its start the machine goes along the path, with the rest of the choices left. */
  ghost predicate LeadsAlong(p: Program, path: seq<nat>, r: Reg, choices: seq<nat>, rest: seq<nat>, regs: Regs)
    requires WellFormed(p) && |path| > 0 && |regs| == 128 && forall k :: 0 <= k < |path| ==> path[k] < |p.stmts|
  {
    var end := Run(p, Observer(p), Begin(path[0], regs, choices), |path| - 1);
    Stands(p, end, path[|path| - 1], rest, r, regs[r]) && (NoCalls(p, path[..|path| - 1]) ==> end.stack == [])
  }

  lemma FrontIsInward(p: Program, path: seq<nat>, r: Reg)
    requires WellFormed(p) && Inward(p, path, r) && |path| > 1
    ensures Inward(p, path[..|path| - 1], r) && StepsInto(p, path[|path| - 2], path[|path| - 1], r)
  {
    hide StepsInto;
    var front := path[..|path| - 1];
    forall k | 0 <= k < |front| - 1 ensures StepsInto(p, front[k], front[k + 1], r) {
      assert StepsInto(p, path[k], path[k + 1], r);
    }
  }

  lemma LeadsOn(p: Program, path: seq<nat>, r: Reg, choices: seq<nat>, choice: nat, rest: seq<nat>, regs: Regs)
    requires WellFormed(p) && Inward(p, path, r) && |path| > 1 && |regs| == 128
    requires var i := path[|path| - 2];
      && StepsInto(p, i, path[|path| - 1], r)
      && (p.stmts[i].kind != Call ==>
            Onward(p, i, choice) == At(path[|path| - 1]) && p.stmts[i].kind != Ret && (p.stmts[i].kind == CondRet ==> choice != 0))
      && LeadsAlong(p, path[..|path| - 1], r, choices, if p.stmts[i].kind == Call then rest else [choice] + rest, regs)
    ensures LeadsAlong(p, path, r, choices, rest, regs)
  {
    hide Step, Succs, Kills, Onward, StepsInto;
    var last := |path| - 1;
    var front, i := path[..last], path[last - 1];
    var before := Run(p, Observer(p), Begin(path[0], regs, choices), last - 1);
    StepAlong(p, before, i, path[last], r, choice, rest);
    if NoCalls(p, front) {
      assert front[last - 1] == i && front[..last - 1] == path[..last - 1];
    }
  }

  /** Some choices take the machine along the whole path, whatever the registers hold. */
  lemma {:induction false} Follow(p: Program, path: seq<nat>, r: Reg, rest: seq<nat>) returns (choices: seq<nat>)
    requires WellFormed(p) && Inward(p, path, r)
    ensures forall regs: Regs :: |regs| == 128 ==> LeadsAlong(p, path, r, choices, rest, regs)
    decreases |path|
  {
    if |path| == 1 {
      choices := rest;
    } else {
      hide Step, Succs, Kills, Onward, StepsInto, LeadsAlong;
      var i, j := path[|path| - 2], path[|path| - 1];
      FrontIsInward(p, path, r);
      var choice := 0;
      if p.stmts[i].kind != Call { choice := ChoiceOfStep(p, i, j, r); }
      choices := Follow(p, path[..|path| - 1], r, if p.stmts[i].kind == Call then rest else [choice] + rest);
      forall regs: Regs | |regs| == 128 ensures LeadsAlong(p, path, r, choices, rest, regs) {
        LeadsOn(p, path, r, choices, choice, rest, regs);
      }
    }
  }

  lemma ChoiceOfStep(p: Program, i: nat, j: nat, r: Reg) returns (choice: nat)
    requires WellFormed(p) && i < |p.stmts| && StepsInto(p, i, j, r) && p.stmts[i].kind != Call
    ensures Onward(p, i, choice) == At(j) && p.stmts[i].kind != Ret && (p.stmts[i].kind == CondRet ==> choice != 0)
  {
    choice := ChoiceAlong(p, i, To(j));
    SuccessorsAreWhereControlGoes(p, i, To(j));
  }

  /** What a statement at the end of a path does with r: reads it, jumps who knows where,
      leaves the image, or returns it to nobody. */
  ghost predicate Notices(p: Program, i: nat, r: Reg, atTop: bool)
    requires WellFormed(p) && i < |p.stmts|
  {
    || (r in p.stmts[i].uses && p.stmts[i].kind != Call)
    || p.stmts[i].kind == Unknown
    || LeavesImage(p, i, r) || CalleeOf(p, i, r) == Some(Anywhere)
    || (p.stmts[i].kind in {Ret, CondRet} && r in p.retLive && atTop)
  }

  /** The two runs can be told apart from outside the register file, or left the image or
      returned with different registers that count. */
  ghost predicate ToldApart(p: Program, a: State<Script>, b: State<Script>) {
    || a.where != b.where || a.world != b.world
    || (a.where == Escaped && a.regs != b.regs)
    || (a.where == Returned && exists r: Reg :: r in p.retLive && r < |a.regs| == |b.regs| && a.regs[r] != b.regs[r])
  }

  lemma LastChoice(p: Program, i: nat, r: Reg) returns (choice: nat)
    requires WellFormed(p) && i < |p.stmts|
    ensures p.stmts[i].kind in {Ret, CondRet} && r in p.retLive ==> choice == 0
    ensures LeavesImage(p, i, r) && !(p.stmts[i].kind == CondRet && r in p.retLive) ==>
      Onward(p, i, choice) == Escaped && p.stmts[i].kind !in {Ret, CondRet, Call}
  {
    choice := 0;
    if LeavesImage(p, i, r) && !(p.stmts[i].kind == CondRet && r in p.retLive) {
      SuccessorsAreWhereControlGoes(p, i, Anywhere);
      choice := ChoiceAlong(p, i, Anywhere);
    }
  }

  lemma StepNotes(p: Program, a: State<Script>, i: nat)
    requires WellFormed(p) && ValidState(p, a) && a.where == At(i) && p.stmts[i].kind != Call
    ensures Step(p, Observer(p), a).world.seen == a.world.seen + [ViewOf(a.regs, p.stmts[i].uses)]
  {
    hide Onward, Fall, ViewOf;
  }

  lemma LastReads(p: Program, a: State<Script>, b: State<Script>, i: nat, r: Reg)
    requires WellFormed(p) && ValidState(p, a) && ValidState(p, b) && a.where == b.where == At(i)
    requires i < |p.stmts| && r in p.stmts[i].uses && p.stmts[i].kind != Call && a.regs[r] != b.regs[r]
    ensures Step(p, Observer(p), a).world != Step(p, Observer(p), b).world
  {
    hide Step;
    StepNotes(p, a, i);
    StepNotes(p, b, i);
    var va, vb := ViewOf(a.regs, p.stmts[i].uses), ViewOf(b.regs, p.stmts[i].uses);
    assert va[r] != vb[r];
    var sa, sb := a.world.seen + [va], b.world.seen + [vb];
    assert sa[|sa| - 1] == va && sb[|sb| - 1] == vb;
  }

  lemma LastReturns(p: Program, a: State<Script>, i: nat, r: Reg)
    requires WellFormed(p) && ValidState(p, a) && a.where == At(i) && a.stack == []
    requires i < |p.stmts| && p.stmts[i].kind in {Ret, CondRet} && a.world.choices == [0]
    ensures Step(p, Observer(p), a).where == Returned && Step(p, Observer(p), a).regs[r] == a.regs[r]
  {
    assert WellFormedStmt(p, p.stmts[i]);
  }

  lemma LastLeaves(p: Program, a: State<Script>, i: nat, r: Reg, choice: nat)
    requires WellFormed(p) && ValidState(p, a) && a.where == At(i) && i < |p.stmts|
    requires a.world.choices == [choice] && !Kills(p, i, r)
    requires p.stmts[i].kind !in {Ret, CondRet, Call} && Onward(p, i, choice) == Escaped
    ensures Step(p, Observer(p), a).where == Escaped && Step(p, Observer(p), a).regs[r] == a.regs[r]
  {
  }

  lemma LastCalls(p: Program, a: State<Script>, i: nat, r: Reg)
    requires WellFormed(p) && ValidState(p, a) && a.where == At(i) && i < |p.stmts| && CalleeOf(p, i, r) == Some(Anywhere)
    ensures Step(p, Observer(p), a).where == Escaped && Step(p, Observer(p), a).regs[r] == a.regs[r]
  {
    assert WellFormedStmt(p, p.stmts[i]);
  }

  lemma LastStep(p: Program, a: State<Script>, b: State<Script>, i: nat, r: Reg, choice: nat, atTop: bool)
    requires WellFormed(p) && i < |p.stmts| && Notices(p, i, r, atTop)
    requires ValidState(p, a) && ValidState(p, b) && a.regs[r] != b.regs[r]
    requires Stands(p, a, i, [choice], r, a.regs[r]) && Stands(p, b, i, [choice], r, b.regs[r])
    requires atTop ==> a.stack == b.stack == []
    requires p.stmts[i].kind in {Ret, CondRet} && r in p.retLive ==> choice == 0
    requires LeavesImage(p, i, r) && !(p.stmts[i].kind == CondRet && r in p.retLive) ==>
      Onward(p, i, choice) == Escaped && p.stmts[i].kind !in {Ret, CondRet, Call}
    ensures ToldApart(p, Step(p, Observer(p), a), Step(p, Observer(p), b))
  {
    hide Step, Succs;
    StepValid(p, Observer(p), a);
    StepValid(p, Observer(p), b);
    if r in p.stmts[i].uses && p.stmts[i].kind != Call {
      LastReads(p, a, b, i, r);
    } else if CalleeOf(p, i, r) == Some(Anywhere) {
      LastCalls(p, a, i, r);
      LastCalls(p, b, i, r);
    } else if p.stmts[i].kind in {Ret, CondRet} && r in p.retLive && atTop {
      LastReturns(p, a, i, r);
      LastReturns(p, b, i, r);
    } else {
      assert WellFormedStmt(p, p.stmts[i]);
      SuccessorsAreWhereControlGoes(p, i, Anywhere);
      LastLeaves(p, a, i, r, choice);
      LastLeaves(p, b, i, r, choice);
    }
  }

  /** After n steps the machine tells the two register files apart. */
  ghost predicate Noticed(p: Program, i: nat, choices: seq<nat>, a: Regs, b: Regs, n: nat)
    requires WellFormed(p) && i < |p.stmts| && |a| == |b| == 128
  {
    ToldApart(p, Run(p, Observer(p), Begin(i, a, choices), n), Run(p, Observer(p), Begin(i, b, choices), n))
  }

  lemma LastIsNoticed(p: Program, path: seq<nat>, r: Reg, choices: seq<nat>, choice: nat, a: Regs, b: Regs)
    requires WellFormed(p) && Inward(p, path, r) && |a| == |b| == 128 && a[r] != b[r]
    requires LeadsAlong(p, path, r, choices, [choice], a) && LeadsAlong(p, path, r, choices, [choice], b)
    requires var i := path[|path| - 1];
      && Notices(p, i, r, NoCalls(p, path[..|path| - 1]))
      && (p.stmts[i].kind in {Ret, CondRet} && r in p.retLive ==> choice == 0)
      && (LeavesImage(p, i, r) && !(p.stmts[i].kind == CondRet && r in p.retLive) ==>
            Onward(p, i, choice) == Escaped && p.stmts[i].kind !in {Ret, CondRet, Call})
    ensures Noticed(p, path[0], choices, a, b, |path|)
  {
    hide Step, Notices, LeavesImage, ToldApart, Onward, StepsInto, Succs, Kills;
    var sa, sb := Begin(path[0], a, choices), Begin(path[0], b, choices);
    LastStep(p, Run(p, Observer(p), sa, |path| - 1), Run(p, Observer(p), sb, |path| - 1), path[|path| - 1], r, choice,
             NoCalls(p, path[..|path| - 1]));
  }

  /** A register that a path reads is noticed: for any path that enters the callees it
      meets and ends where the register counts, some choices make the machine tell any two
      values of it apart. So nothing such a path reads may be left out of the live sets. */
  lemma ReadOnAPathIsNoticed(p: Program, path: seq<nat>, r: Reg) returns (choices: seq<nat>)
    requires WellFormed(p) && Inward(p, path, r)
    requires Notices(p, path[|path| - 1], r, NoCalls(p, path[..|path| - 1]))
    ensures Obeys(p, Observer(p))
    ensures forall a: Regs, b: Regs {:trigger Noticed(p, path[0], choices, a, b, |path|)} ::
      |a| == |b| == 128 && a[r] != b[r] ==> Noticed(p, path[0], choices, a, b, |path|)
  {
    hide Step, Notices, LeavesImage, ToldApart, Onward, Obeys, StepsInto, LeadsAlong, Noticed, Succs, Kills, Run;
    ObserverObeys(p);
    var i, atTop := path[|path| - 1], NoCalls(p, path[..|path| - 1]);
    var choice := LastChoice(p, i, r);
    choices := Follow(p, path, r, [choice]);
    forall a: Regs, b: Regs | |a| == |b| == 128 && a[r] != b[r] ensures Noticed(p, path[0], choices, a, b, |path|) {
      LastIsNoticed(p, path, r, choices, choice, a, b);
    }
  }

  /** Such a path is one of those the live sets stand for. */
  lemma NoticedIsLive(p: Program, live: Live, path: seq<nat>, r: Reg)
    requires LeastSolution(p, live) && Inward(p, path, r)
    requires Notices(p, path[|path| - 1], r, NoCalls(p, path[..|path| - 1]))
    ensures r in live[path[0]]
  {
    forall k | 0 <= k < |path| - 1 ensures Edge(p, path[k], path[k + 1], r) {
      assert StepsInto(p, path[k], path[k + 1], r);
    }
    assert ReadPath(p, path, r);
    PathStartIsLive(p, live, path, r);
  }

  /** Every edge of a path is such a step, or passes over a call whose return comes back
      behind it; and a path ends where the register counts, for a run that starts there. */
  lemma PathsAreRuns(p: Program, i: nat, j: nat, r: Reg)
    requires WellFormed(p) && i < |p.stmts|
    ensures Edge(p, i, j, r) <==> StepsInto(p, i, j, r) || (p.stmts[i].kind == Call && To(j) in Succs(p, i) && !Kills(p, i, r))
    ensures EndsInRead(p, i, r) <==> Notices(p, i, r, true)
  {
    assert WellFormedStmt(p, p.stmts[i]);
  }

  /** So what a statement itself reads is noticed by running it. */
  lemma ReadHereIsNoticed(p: Program, i: nat, r: Reg) returns (choices: seq<nat>)
    requires WellFormed(p) && i < |p.stmts| && EndsInRead(p, i, r)
    ensures forall a: Regs, b: Regs {:trigger Noticed(p, i, choices, a, b, 1)} ::
      |a| == |b| == 128 && a[r] != b[r] ==> Noticed(p, i, choices, a, b, 1)
  {
    PathsAreRuns(p, i, i, r);
    hide Noticed, Notices, EndsInRead, Obeys;
    choices := ReadOnAPathIsNoticed(p, [i], r);
  }

  /** A callee keeps r1 and r80 to r127. */
  lemma CalleesKeep(r: Reg)
    ensures r !in CALL_KILL <==> r == 1 || 80 <= r
  {
  }
}
