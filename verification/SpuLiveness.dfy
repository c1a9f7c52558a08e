/** The round-robin iteration that computes the live sets, updating them in place. */
module SpuLiveness {
  import opened Common
  import opened SpuFlow
  import opened SpuWitness

  /** How many (statement, register) pairs are live. */
  ghost function TotalSize(live: Live): nat {
    if |live| == 0 then 0 else |live[0]| + TotalSize(live[1..])
  }

  lemma AllRegsSize(n: nat, regs: set<Reg>)
    requires regs <= ALL_REGS && n <= 128
    requires forall r :: r in regs ==> r < n
    ensures |regs| <= n
  {
    if n > 0 {
      var top: Reg := n - 1;
      AllRegsSize(n - 1, regs - {top});
      if top in regs {
        assert |regs - {top}| == |regs| - 1;
      } else {
        assert regs - {top} == regs;
      }
    }
  }

  lemma TotalSizeBound(live: Live)
    ensures TotalSize(live) <= 128 * |live|
  {
    if |live| > 0 {
      AllRegsSize(128, live[0]);
      TotalSizeBound(live[1..]);
    }
  }

  lemma TotalSizeUpdate(live: Live, i: nat, regs: set<Reg>)
    requires i < |live|
    ensures TotalSize(live[i := regs]) == TotalSize(live) - |live[i]| + |regs|
  {
    if i == 0 {
      assert live[i := regs][1..] == live[1..];
    } else {
      TotalSizeUpdate(live[1..], i - 1, regs);
      assert live[i := regs][1..] == live[1..][i - 1 := regs];
    }
  }

  lemma ProperSubsetIsSmaller(a: set<Reg>, b: set<Reg>)
    requires a <= b && a != b
    ensures |a| < |b|
  {
    var r :| r in b && r !in a;
    assert a <= b - {r};
    SubsetIsNotLarger(a, b - {r});
  }

  lemma SubsetIsNotLarger(a: set<Reg>, b: set<Reg>)
    requires a <= b
    ensures |a| <= |b|
  {
    if a != {} {
      var r :| r in a;
      SubsetIsNotLarger(a - {r}, b - {r});
    }
  }

  /** What holds between any two updates of the iteration: every set only asks for
      more, and nothing outside a closed assignment was ever added. */
  ghost predicate Ascending(p: Program, live: Live) {
    && WellFormed(p) && |live| == |p.stmts|
    && (forall i :: 0 <= i < |live| ==> live[i] <= Transfer(p, live, i))
    && (forall other :: Closed(p, other) ==> Below(live, other))
  }

  lemma EmptyIsAscending(p: Program, live: Live)
    requires WellFormed(p) && |live| == |p.stmts|
    requires forall i :: 0 <= i < |live| ==> live[i] == {}
    ensures Ascending(p, live)
  {
  }

  /** Replacing one set by its transfer, with the other sets already changed, keeps
      the iteration ascending and strictly enlarges the total when it changes anything. */
  lemma UpdateKeepsAscending(p: Program, live: Live, i: nat)
    requires Ascending(p, live) && i < |live|
    ensures Ascending(p, live[i := Transfer(p, live, i)])
    ensures Transfer(p, live, i) != live[i] ==>
              TotalSize(live) < TotalSize(live[i := Transfer(p, live, i)])
  {
    var next := Transfer(p, live, i);
    var after := live[i := next];
    assert Below(live, after);
    forall k | 0 <= k < |after| ensures after[k] <= Transfer(p, after, k) {
      TransferMonotone(p, live, after, k);
    }
    forall other | Closed(p, other) ensures Below(after, other) {
      TransferMonotone(p, live, other, i);
    }
    TotalSizeUpdate(live, i, next);
    if next != live[i] {
      ProperSubsetIsSmaller(live[i], next);
    }
  }

  class Liveness {
    const program: Program
    var live: Live
    var rounds: nat

    /** Iterates until a whole round changes nothing. It always stops, and stops in
        the least solution of the transfer equations. */
    constructor (p: Program)
      requires WellFormed(p)
      ensures program == p
      ensures LeastSolution(program, live)
      ensures rounds <= 128 * |p.stmts| + 1
    {
      program := p;
      live := seq(|p.stmts|, _ => {});
      rounds := 0;
      new;
      var n := |p.stmts|;
      EmptyIsAscending(p, live);
      var changed := true;
      while changed
        invariant |live| == n && program == p
        invariant Ascending(p, live)
        invariant !changed ==> Solution(p, live)
        invariant rounds <= TotalSize(live) + (if changed then 0 else 1)
        decreases changed, 128 * n - TotalSize(live)
      {
        changed := false;
        rounds := rounds + 1;
        ghost var before := live;
        ghost var roundsNow := rounds;
        TotalSizeBound(live);
        var i := n;
        while i > 0
          invariant 0 <= i <= n && |live| == n && program == p
          invariant Ascending(p, live)
          invariant rounds == roundsNow
          invariant !changed ==> live == before
          invariant changed ==> TotalSize(before) < TotalSize(live)
          invariant !changed ==> forall k :: i <= k < n ==> live[k] == Transfer(p, live, k)
        {
          i := i - 1;
          var updated := TransferOf(i);
          UpdateKeepsAscending(p, live, i);
          if updated != live[i] {
            live := live[i := updated];
            changed := true;
          }
        }
        TotalSizeBound(live);
      }
      TotalSizeBound(live);
    }

    /** The transfer of one statement, accumulated over its successors. */
    method TransferOf(i: nat) returns (regs: set<Reg>)
      requires WellFormed(program) && i < |program.stmts| == |live|
      ensures regs == Transfer(program, live, i)
    {
      var st := program.stmts[i];
      assert WellFormedStmt(program, st);
      if st.kind == Unknown { return ALL_REGS; }
      if st.kind == Halt { return st.uses; }
      if st.kind == Ret { return program.retLive + st.uses; }
      var out: set<Reg> := {};
      var succs := Succs(program, i);
      for k := 0 to |succs|
        invariant out <= LiveOut(program, live, i)
        invariant forall j :: 0 <= j < k ==> ReachedLive(program, live, i, succs[j]) <= out
      {
        SuccsInRange(program, i, succs[k]);
        assert ReachedLive(program, live, i, succs[k]) <= LiveOut(program, live, i);
        out := out + LiveAt(live, succs[k]);
      }
      assert out == LiveOut(program, live, i);
      if st.kind == CondRet { out := out + program.retLive; }
      if st.kind == Call {
        return ((out - CALL_KILL) + EntryLive(program, live, st.targets[0])) - {0};
      }
      if st.write.Some? { out := out - {st.write.value}; }
      return out + st.uses;
    }

    /** Breadth-first search for a read of r from i0 on. Finds a witness path exactly when
        there is one; for r1-r127 that is exactly when r is live at i0. */
    method PathToRead(i0: nat, r: Reg) returns (path: Option<seq<nat>>, why: Why)
      requires LeastSolution(program, live) && i0 < |program.stmts|
      ensures Answer(program, live, i0, r, path, why)
      ensures r != 0 ==> (path.Some? <==> r in live[i0])
    {
      var prev: map<nat, Option<nat>> := map[i0 := None];
      var q: seq<nat> := [i0];
      ghost var done: seq<nat> := [];
      ghost var walks: map<nat, seq<nat>> := map[i0 := [i0]];
      FoundStart(program, i0, r);
      assert done + q == [i0];
      while q != []
        invariant Found(program, prev, walks, done + q, i0, r)
        invariant AllExhausted(program, live, prev.Keys, done, r)
        decreases |program.stmts| - |done|
      {
        FoundBound(program, prev, walks, done + q, i0, r);
        var i := q[0];
        ghost var order := done + q;
        assert order == (done + [i]) + q[1..] && i in order;
        var added, hit;
        ghost var known := prev.Keys;
        prev, added, walks, hit := Visit(prev, walks, order, i, i0, r);
        if hit.Some? {
          FoundPathStops(program, live, prev, walks, order + added, i0, r, i);
          var found := Back(prev, i, walks, i0, r);
          path, why := Some(found), hit.value;
          AnswerIffLive(program, live, i0, r, path, why);
          return;
        }
        AllExhaustedMonotone(program, live, known, prev.Keys, done, r);
        q := q[1..] + added;
        done := done + [i];
        assert done + q == order + added;
      }
      assert done + q == done;
      NothingLeft(program, live, prev, walks, done, i0, r);
      path, why := None, NoLabel;
      AnswerIffLive(program, live, i0, r, path, why);
    }

    /** Looks at one statement: either it ends the search, or its successors are found. */
    method Visit(prev: map<nat, Option<nat>>, ghost walks: map<nat, seq<nat>>, ghost order: seq<nat>,
                 i: nat, ghost i0: nat, r: Reg)
      returns (prev2: map<nat, Option<nat>>, added: seq<nat>, ghost walks2: map<nat, seq<nat>>, hit: Option<Why>)
      requires WellFormed(program) && |live| == |program.stmts| && i < |program.stmts| && i in prev
      requires Found(program, prev, walks, order, i0, r)
      ensures Found(program, prev2, walks2, order + added, i0, r)
      ensures prev.Keys <= prev2.Keys
      ensures hit.Some? ==> hit.value == ReasonAt(program, live, i, r)
                            && (SearchStops(program, live, i, r) || LeavesImage(program, i, r))
      ensures hit.None? ==> ExhaustedAt(program, live, prev2.Keys, i, r)
    {
      prev2, added, walks2, hit := prev, [], walks, None;
      assert order + added == order;
      var st := program.stmts[i];
      assert WellFormedStmt(program, st);
      if r in st.uses || st.kind == Unknown || (st.kind in {Ret, CondRet} && r in program.retLive)
         || (st.kind == Call && r in EntryLive(program, live, st.targets[0]))
      {
        hit := Some(if st.kind == Op then ARead else AtKind(st.kind));
        return;
      }
      if st.write == Some(r) || (st.kind == Call && r in CALL_KILL) {
        return;
      }
      var leaves;
      prev2, added, walks2, leaves := Expand(prev, walks, order, i, i0, r);
      if leaves {
        hit := Some(NoLabel);
      }
    }

    /** Finds the successors of i that were not found before; leaves is set, and the rest
        of the list not looked at, when one of them has no label. */
    method Expand(prev: map<nat, Option<nat>>, ghost walks: map<nat, seq<nat>>, ghost order: seq<nat>,
                  i: nat, ghost i0: nat, ghost r: Reg)
      returns (prev2: map<nat, Option<nat>>, added: seq<nat>, ghost walks2: map<nat, seq<nat>>, leaves: bool)
      requires WellFormed(program) && i < |program.stmts| && i in prev && !Kills(program, i, r)
      requires Found(program, prev, walks, order, i0, r)
      ensures Found(program, prev2, walks2, order + added, i0, r)
      ensures prev.Keys <= prev2.Keys
      ensures leaves <==> LeavesImage(program, i, r)
      ensures !leaves ==> forall j {:trigger To(j) in Succs(program, i)} :: To(j) in Succs(program, i) ==> j in prev2
    {
      prev2, added, walks2 := prev, [], walks;
      ghost var all := order;
      assert all == order + added;
      var succs := Succs(program, i);
      for k := 0 to |succs|
        invariant all == order + added
        invariant Found(program, prev2, walks2, all, i0, r)
        invariant prev.Keys <= prev2.Keys
        invariant forall j :: 0 <= j < k ==> succs[j].To? && succs[j].index in prev2
      {
        assert succs[k] in succs;
        SuccsInRange(program, i, succs[k]);
        if succs[k].Anywhere? {
          return prev2, added, walks2, true;
        }
        var j := succs[k].index;
        if j !in prev2 {
          FoundGrows(program, prev2, walks2, all, i0, r, i, j);
          prev2, walks2, all := prev2[j := Some(i)], walks2[j := walks2[i] + [j]], all + [j];
          added := added + [j];
        }
      }
      leaves := false;
    }

    /** Follows the predecessor links back to i0 and returns the statements in order. */
    method Back(prev: map<nat, Option<nat>>, last: nat, ghost walks: map<nat, seq<nat>>, ghost i0: nat, ghost r: Reg)
      returns (path: seq<nat>)
      requires WellFormed(program) && Links(program, prev, walks, i0, r) && last in prev
      ensures path == walks[last]
    {
      path := [last];
      assert LinkAt(program, prev, walks, i0, r, last);
      var i := prev[last];
      var at := last;
      while i.Some?
        invariant at in prev && i == prev[at]
        invariant |path| > 0 && path[0] == at
        invariant walks[last] == walks[at] + path[1..]
        decreases |walks[at]|
      {
        assert LinkAt(program, prev, walks, i0, r, at);
        at := i.value;
        path := [at] + path;
        i := prev[at];
        assert path[1..] == [path[1]] + path[2..];
      }
      assert LinkAt(program, prev, walks, i0, r, at);
    }
  }

}
