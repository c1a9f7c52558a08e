/**
 The extent of one function: the worklist over its basic blocks, and the instructions it
 can reach by fall-through and by branches that stay inside [start, cap).
 */
module FunctionExtents {
  import opened Common
  import opened PpuCode

  /** One step of control inside the range: to the next instruction or to a branch target. */
  ghost predicate Edge(code: Code, start: nat, cap: nat, j: nat, k: nat)
    requires Indexed(code)
  {
    && j < |code.insns| && k < |code.insns|
    && (Falls(code, cap, j, k) || Branches(code, start, cap, j, k))
  }

  ghost predicate Falls(code: Code, cap: nat, j: nat, k: nat)
    requires j < |code.insns| && k < |code.insns|
  {
    k == j + 1 && code.insns[k].addr < cap && !EndsBlock(code.insns[j])
  }

  ghost predicate Branches(code: Code, start: nat, cap: nat, j: nat, k: nat)
    requires Indexed(code) && j < |code.insns|
  {
    var t := CfgTarget(code.insns[j]);
    t.Some? && start <= t.value < cap && t.value in code.at && code.at[t.value] == k
  }

  /** The steps by kinds of instruction: on to the next one below the bound unless control
      leaves for good, or to the index of a branch's target inside the range. */
  lemma EdgesByKind(code: Code, start: nat, cap: nat, j: nat, k: nat)
    requires Indexed(code) && j < |code.insns| && k < |code.insns|
    ensures Edge(code, start, cap, j, k) <==>
      || (k == j + 1 && code.insns[k].addr < cap && code.insns[j].kind !in {Blr, B, Ba, Bctr})
      || (code.insns[j].kind in {B, Ba, Cond} && code.insns[j].targets != []
          && var t := code.insns[j].targets[0]; start <= t < cap && t in code.at && code.at[t] == k)
  {
  }

  ghost predicate Path(code: Code, start: nat, cap: nat, p: seq<nat>)
    requires Indexed(code)
  {
    && p != [] && start < cap && start in code.at && p[0] == code.at[start]
    && forall i :: 0 <= i < |p| - 1 ==> Edge(code, start, cap, p[i], p[i + 1])
  }

  ghost predicate Reached(code: Code, start: nat, cap: nat, j: nat)
    requires Indexed(code)
  {
    exists p :: Path(code, start, cap, p) && p[|p| - 1] == j
  }

  /** The end of the furthest instruction reached, if that is past the end known already. */
  ghost predicate Furthest(code: Code, start: nat, cap: nat, known: nat, end: nat)
    requires Indexed(code)
  {
    && known <= end
    && (forall j: nat {:trigger Reached(code, start, cap, j)} ::
          j < |code.insns| && Reached(code, start, cap, j) ==> code.insns[j].addr + 4 <= end)
    && (end == known || exists j: nat :: j < |code.insns| && Reached(code, start, cap, j) && code.insns[j].addr + 4 == end)
  }

  lemma ReachedStep(code: Code, start: nat, cap: nat, j: nat, k: nat)
    requires Indexed(code) && Reached(code, start, cap, j) && Edge(code, start, cap, j, k)
    ensures Reached(code, start, cap, k)
  {
    var p :| Path(code, start, cap, p) && p[|p| - 1] == j;
    var q := p + [k];
    forall i | 0 <= i < |q| - 1 ensures Edge(code, start, cap, q[i], q[i + 1]) {
      if i < |p| - 1 { assert Edge(code, start, cap, p[i], p[i + 1]); }
    }
    assert Path(code, start, cap, q) && q[|q| - 1] == k;
  }

  /** A set that holds the root and is closed under the edges holds everything reached. */
  ghost predicate ClosedSet(code: Code, start: nat, cap: nat, walked: set<nat>)
    requires Indexed(code)
  {
    && (start < cap && start in code.at ==> code.at[start] in walked)
    && forall j: nat, k: nat :: j in walked && Edge(code, start, cap, j, k) ==> k in walked
  }

  lemma {:induction false} PathStaysInside(code: Code, start: nat, cap: nat, walked: set<nat>, p: seq<nat>)
    requires Indexed(code) && ClosedSet(code, start, cap, walked) && Path(code, start, cap, p)
    ensures p[|p| - 1] in walked
    decreases |p|
  {
    if |p| > 1 {
      var front := p[..|p| - 1];
      forall i | 0 <= i < |front| - 1 ensures Edge(code, start, cap, front[i], front[i + 1]) {
        assert Edge(code, start, cap, p[i], p[i + 1]);
      }
      PathStaysInside(code, start, cap, walked, front);
      assert Edge(code, start, cap, p[|p| - 2], p[|p| - 1]);
    }
  }

  // ----- one block -------------------------------------------------------------------

  ghost predicate TargetInside(code: Code, start: nat, cap: nat, j: nat, t: nat)
    requires j < |code.insns|
  {
    CfgTarget(code.insns[j]) == Some(t) && start <= t < cap
  }

  /** The straight run [lo, hi) of a block: it falls through inside and not at its end. */
  ghost predicate Block(code: Code, cap: nat, lo: nat, hi: nat) {
    && lo <= hi <= |code.insns|
    && (forall j :: lo <= j < hi ==> code.insns[j].addr < cap)
    && (forall j :: lo <= j < hi - 1 ==> !EndsBlock(code.insns[j]))
    && (hi == |code.insns| || code.insns[hi].addr >= cap || (lo < hi && EndsBlock(code.insns[hi - 1])))
  }

  ghost predicate MaxOver(code: Code, lo: nat, hi: nat, before: nat, after: nat)
    requires lo <= hi <= |code.insns|
  {
    && before <= after
    && (forall j :: lo <= j < hi ==> code.insns[j].addr + 4 <= after)
    && (after == before || exists j :: lo <= j < hi && code.insns[j].addr + 4 == after)
  }

  /** The in-range targets of [lo, hi) are added to the work, and nothing else is. */
  ghost predicate Pushed(code: Code, start: nat, cap: nat, lo: nat, hi: nat, before: seq<nat>, after: seq<nat>)
    requires lo <= hi <= |code.insns|
  {
    && (forall t :: t in before ==> t in after)
    && (forall j, t :: lo <= j < hi && TargetInside(code, start, cap, j, t) ==> t in after)
    && forall t :: t in after ==> t in before || exists j :: lo <= j < hi && TargetInside(code, start, cap, j, t)
  }

  /** What one instruction pushes. */
  function Push(code: Code, start: nat, cap: nat, j: nat, work: seq<nat>): seq<nat>
    requires j < |code.insns|
  {
    var t := CfgTarget(code.insns[j]);
    if t.Some? && start <= t.value < cap then work + [t.value] else work
  }

  lemma PushOne(code: Code, start: nat, cap: nat, lo: nat, j: nat, before: seq<nat>, work: seq<nat>)
    requires lo <= j < |code.insns| && Pushed(code, start, cap, lo, j, before, work)
    ensures Pushed(code, start, cap, lo, j + 1, before, Push(code, start, cap, j, work))
  {
    hide CfgTarget;
    var more := Push(code, start, cap, j, work);
    forall t | t in more ensures t in before || exists i :: lo <= i < j + 1 && TargetInside(code, start, cap, i, t) {
      if t !in work { assert TargetInside(code, start, cap, j, t); }
    }
  }

  lemma MaxOne(code: Code, lo: nat, j: nat, before: nat, now: nat)
    requires lo <= j < |code.insns| && MaxOver(code, lo, j, before, now)
    ensures var e := code.insns[j].addr + 4; MaxOver(code, lo, j + 1, before, if e > now then e else now)
  {
  }

  method WalkBlock(code: Code, start: nat, cap: nat, lo: nat, maxEnd: nat, work: seq<nat>)
    returns (hi: nat, end: nat, more: seq<nat>)
    requires Indexed(code) && lo < |code.insns|
    ensures Block(code, cap, lo, hi) && MaxOver(code, lo, hi, maxEnd, end)
    ensures Pushed(code, start, cap, lo, hi, work, more)
  {
    hide Pushed, MaxOver, CfgTarget, EndsBlock;
    hi, end, more := lo, maxEnd, work;
    NothingYet(code, start, cap, lo, maxEnd, work);
    while hi < |code.insns|
      invariant lo <= hi <= |code.insns|
      invariant forall j :: lo <= j < hi ==> code.insns[j].addr < cap && !EndsBlock(code.insns[j])
      invariant MaxOver(code, lo, hi, maxEnd, end) && Pushed(code, start, cap, lo, hi, work, more)
    {
      var insn := code.insns[hi];
      if insn.addr >= cap { return; }
      MaxOne(code, lo, hi, maxEnd, end);
      PushOne(code, start, cap, lo, hi, work, more);
      if insn.addr + 4 > end { end := insn.addr + 4; }
      var t := CfgTarget(insn);
      if t.Some? && start <= t.value < cap { more := more + [t.value]; }
      hi := hi + 1;
      if EndsBlock(insn) { return; }
    }
  }

  lemma NothingYet(code: Code, start: nat, cap: nat, lo: nat, maxEnd: nat, work: seq<nat>)
    requires lo <= |code.insns|
    ensures MaxOver(code, lo, lo, maxEnd, maxEnd) && Pushed(code, start, cap, lo, lo, work, work)
  {
  }

  // ----- the worklist ------------------------------------------------------------------

  /** Every walked instruction is reached, and what follows it is walked, seen or waiting. */
  ghost predicate WalkedOk(code: Code, start: nat, cap: nat, seen: set<nat>, work: seq<nat>, walked: set<nat>)
    requires Indexed(code)
  {
    forall j: nat {:trigger j in walked} :: j in walked ==>
      && j < |code.insns| && Reached(code, start, cap, j)
      && (forall k: nat :: k < |code.insns| && Falls(code, cap, j, k) ==> k in walked)
      && (forall t: nat :: TargetInside(code, start, cap, j, t) ==> t in seen || t in work)
  }

  ghost predicate QueueOk(code: Code, start: nat, cap: nat, seen: set<nat>, work: seq<nat>, walked: set<nat>)
    requires Indexed(code)
  {
    && (forall b: nat {:trigger b in seen} :: b in seen ==> start <= b < cap && (b in code.at ==> code.at[b] in walked))
    && (forall b: nat {:trigger b in work} :: b in work && start <= b < cap && b in code.at ==> Reached(code, start, cap, code.at[b]))
    && (start < cap ==> start in seen || start in work)
  }

  lemma RootReached(code: Code, start: nat, cap: nat)
    requires Indexed(code) && start in code.at && start < cap
    ensures Reached(code, start, cap, code.at[start])
  {
    var p := [code.at[start]];
    assert Path(code, start, cap, p) && p[|p| - 1] == code.at[start];
  }

  lemma {:induction false} BlockReached(code: Code, start: nat, cap: nat, lo: nat, hi: nat, j: nat)
    requires Indexed(code) && Block(code, cap, lo, hi) && lo <= j < hi && Reached(code, start, cap, lo)
    ensures Reached(code, start, cap, j)
    decreases j
  {
    if j > lo {
      BlockReached(code, start, cap, lo, hi, j - 1);
      assert Falls(code, cap, j - 1, j);
      ReachedStep(code, start, cap, j - 1, j);
    }
  }

  function Interval(lo: nat, hi: nat): (r: set<nat>)
    ensures forall j :: j in r <==> lo <= j < hi
    decreases hi
  {
    if lo >= hi then {} else Interval(lo, hi - 1) + {hi - 1}
  }

  /** Walking one block keeps the first half of the invariant. */
  lemma BlockKeepsWalked(code: Code, start: nat, cap: nat, seen: set<nat>, work: seq<nat>, walked: set<nat>,
                         b: nat, hi: nat, more: seq<nat>)
    requires Indexed(code) && b in code.at && code.at[b] <= hi <= |code.insns| && b < cap
    requires Block(code, cap, code.at[b], hi) && Pushed(code, start, cap, code.at[b], hi, work, more)
    requires Reached(code, start, cap, code.at[b])
    requires WalkedOk(code, start, cap, seen + {b}, work, walked)
    ensures WalkedOk(code, start, cap, seen + {b}, more, walked + Interval(code.at[b], hi))
  {
    hide Reached, EndsBlock, CfgTarget;
    var lo := code.at[b];
    var all := walked + Interval(lo, hi);
    forall j: nat | j in all
      ensures j < |code.insns| && Reached(code, start, cap, j)
      ensures forall k: nat :: k < |code.insns| && Falls(code, cap, j, k) ==> k in all
      ensures forall t: nat :: TargetInside(code, start, cap, j, t) ==> t in seen + {b} || t in more
    {
      if j !in walked {
        BlockReached(code, start, cap, lo, hi, j);
      }
    }
  }

  lemma BlockKeepsQueue(code: Code, start: nat, cap: nat, seen: set<nat>, work: seq<nat>, walked: set<nat>,
                        b: nat, hi: nat, more: seq<nat>)
    requires Indexed(code) && b in code.at && start <= b < cap && code.at[b] < hi <= |code.insns|
    requires Block(code, cap, code.at[b], hi) && Pushed(code, start, cap, code.at[b], hi, work, more)
    requires Reached(code, start, cap, code.at[b])
    requires QueueOk(code, start, cap, seen, work + [b], walked)
    ensures QueueOk(code, start, cap, seen + {b}, more, walked + Interval(code.at[b], hi))
  {
    hide Reached, EndsBlock, CfgTarget;
    var lo := code.at[b];
    forall t: nat | t in more && start <= t < cap && t in code.at ensures Reached(code, start, cap, code.at[t]) {
      if t in work {
        assert t in work + [b];
      } else {
        var j :| lo <= j < hi && TargetInside(code, start, cap, j, t);
        BlockReached(code, start, cap, lo, hi, j);
        assert Edge(code, start, cap, j, code.at[t]) by { TargetIsEdge(code, start, cap, j, t); }
        ReachedStep(code, start, cap, j, code.at[t]);
      }
    }
    forall x: nat | x in seen + {b} && x in code.at ensures code.at[x] in walked + Interval(lo, hi) {
      if x in seen { assert code.at[x] in walked; }
    }
    if start < cap && start !in seen + {b} {
      assert start in work + [b];
      assert start in work;
    }
  }

  lemma TargetIsEdge(code: Code, start: nat, cap: nat, j: nat, t: nat)
    requires Indexed(code) && j < |code.insns| && TargetInside(code, start, cap, j, t) && t in code.at
    ensures Edge(code, start, cap, j, code.at[t])
  {
  }

  /** When nothing is waiting, exactly the reached instructions have been walked. */
  lemma WorkDone(code: Code, start: nat, cap: nat, seen: set<nat>, walked: set<nat>, j: nat)
    requires Indexed(code) && WalkedOk(code, start, cap, seen, [], walked) && QueueOk(code, start, cap, seen, [], walked)
    ensures j in walked <==> Reached(code, start, cap, j)
  {
    hide EndsBlock, CfgTarget;
    if Reached(code, start, cap, j) {
      forall x: nat, k: nat | x in walked && Edge(code, start, cap, x, k) ensures k in walked {
        if !Falls(code, cap, x, k) { BranchIsTarget(code, start, cap, x, k); }
      }
      var p :| Path(code, start, cap, p) && p[|p| - 1] == j;
      PathStaysInside(code, start, cap, walked, p);
    }
  }

  lemma BranchIsTarget(code: Code, start: nat, cap: nat, j: nat, k: nat)
    requires Indexed(code) && j < |code.insns| && Branches(code, start, cap, j, k)
    ensures exists t: nat :: TargetInside(code, start, cap, j, t) && t in code.at && code.at[t] == k
  {
    var t := CfgTarget(code.insns[j]).value;
    assert TargetInside(code, start, cap, j, t);
  }

  function Targets(insns: seq<Insn>): set<nat> {
    set j | 0 <= j < |insns| && CfgTarget(insns[j]).Some? :: CfgTarget(insns[j]).value
  }

  ghost predicate MaxWalked(code: Code, walked: set<nat>, before: nat, after: nat) {
    && before <= after
    && (forall j: nat {:trigger j in walked} :: j in walked ==> j < |code.insns| && code.insns[j].addr + 4 <= after)
    && (after == before || exists j: nat :: j in walked && code.insns[j].addr + 4 == after)
  }

  lemma MaxJoins(code: Code, walked: set<nat>, lo: nat, hi: nat, a: nat, b: nat, c: nat)
    requires lo <= hi <= |code.insns| && MaxWalked(code, walked, a, b) && MaxOver(code, lo, hi, b, c)
    ensures MaxWalked(code, walked + Interval(lo, hi), a, c)
  {
    if c != b {
      var j :| lo <= j < hi && code.insns[j].addr + 4 == c;
      assert j in walked + Interval(lo, hi);
    } else if b != a {
      var j :| j in walked && code.insns[j].addr + 4 == b;
      assert j in walked + Interval(lo, hi);
    }
  }

  lemma PushedAreTargets(code: Code, start: nat, cap: nat, lo: nat, hi: nat, work: seq<nat>, more: seq<nat>, all: set<nat>)
    requires lo <= hi <= |code.insns| && Pushed(code, start, cap, lo, hi, work, more) && Targets(code.insns) <= all
    requires forall t :: t in work ==> t in all
    ensures forall t :: t in more ==> t in all
  {
  }

  lemma Begun(code: Code, start: nat, cap: nat, end: nat)
    requires Indexed(code) && start in code.at
    ensures WalkedOk(code, start, cap, {}, [start], {}) && QueueOk(code, start, cap, {}, [start], {})
    ensures MaxWalked(code, {}, end, end)
  {
    if start < cap { RootReached(code, start, cap); }
  }

  lemma TopReached(code: Code, start: nat, cap: nat, seen: set<nat>, work: seq<nat>, walked: set<nat>, b: nat)
    requires Indexed(code) && QueueOk(code, start, cap, seen, work + [b], walked) && start <= b < cap && b in code.at
    ensures Reached(code, start, cap, code.at[b])
  {
    assert b in work + [b];
  }

  lemma Finished(code: Code, start: nat, cap: nat, seen: set<nat>, walked: set<nat>, oldEnd: nat, maxEnd: nat)
    requires Indexed(code) && WalkedOk(code, start, cap, seen, [], walked) && QueueOk(code, start, cap, seen, [], walked)
    requires MaxWalked(code, walked, oldEnd, maxEnd)
    ensures Furthest(code, start, cap, oldEnd, maxEnd)
  {
    forall j: nat ensures j in walked <==> Reached(code, start, cap, j) {
      WorkDone(code, start, cap, seen, walked, j);
    }
  }

  /** The worklist ends, and its maximum is the furthest instruction reached. */
  method FurthestReached(code: Code, start: nat, cap: nat, oldEnd: nat) returns (maxEnd: nat)
    requires Indexed(code) && start in code.at
    ensures Furthest(code, start, cap, oldEnd, maxEnd)
  {
    hide Reached, Block, WalkedOk, QueueOk, MaxWalked, Pushed, MaxOver, Furthest, Interval, Targets;
    var seen: set<nat>, work: seq<nat> := {}, [start];
    maxEnd := oldEnd;
    ghost var walked: set<nat> := {};
    ghost var all := Targets(code.insns) + {start};
    Begun(code, start, cap, oldEnd);
    while work != []
      invariant WalkedOk(code, start, cap, seen, work, walked)
      invariant QueueOk(code, start, cap, seen, work, walked)
      invariant MaxWalked(code, walked, oldEnd, maxEnd)
      invariant seen <= all && forall t :: t in work ==> t in all
      decreases |all - seen|, |work|
    {
      var b := work[|work| - 1];
      assert work == work[..|work| - 1] + [b];
      work := work[..|work| - 1];
      if b in seen || !(start <= b < cap) {
        QueueShrinks(code, start, cap, seen, work, walked, b);
      } else {
        LessLeft(all, seen, b);
        if b !in code.at {
          QueueMarks(code, start, cap, seen, work, walked, b);
        } else {
          TopReached(code, start, cap, seen, work, walked, b);
          WalkedMarks(code, start, cap, seen, work, walked, b);
          var hi, end, more := WalkBlock(code, start, cap, code.at[b], maxEnd, work);
          BlockStarts(code, cap, b, hi);
          BlockKeepsWalked(code, start, cap, seen, work, walked, b, hi, more);
          BlockKeepsQueue(code, start, cap, seen, work, walked, b, hi, more);
          MaxJoins(code, walked, code.at[b], hi, oldEnd, maxEnd, end);
          PushedAreTargets(code, start, cap, code.at[b], hi, work, more, all);
          walked := walked + Interval(code.at[b], hi);
          work, maxEnd := more, end;
        }
        seen := seen + {b};
      }
    }
    Finished(code, start, cap, seen, walked, oldEnd, maxEnd);
  }

  lemma LessLeft(all: set<nat>, seen: set<nat>, b: nat)
    requires b in all && b !in seen
    ensures |all - (seen + {b})| < |all - seen|
  {
    assert all - seen == (all - (seen + {b})) + {b};
  }

  lemma BlockStarts(code: Code, cap: nat, b: nat, hi: nat)
    requires Indexed(code) && b in code.at && b < cap && Block(code, cap, code.at[b], hi)
    ensures code.at[b] < hi <= |code.insns|
  {
  }

  lemma QueueShrinks(code: Code, start: nat, cap: nat, seen: set<nat>, work: seq<nat>, walked: set<nat>, b: nat)
    requires Indexed(code) && (b in seen || !(start <= b < cap))
    requires WalkedOk(code, start, cap, seen, work + [b], walked) && QueueOk(code, start, cap, seen, work + [b], walked)
    ensures WalkedOk(code, start, cap, seen, work, walked) && QueueOk(code, start, cap, seen, work, walked)
  {
    hide Reached, Falls, EndsBlock;
    forall t: nat | t in work ensures t in work + [b] {}
  }

  lemma QueueMarks(code: Code, start: nat, cap: nat, seen: set<nat>, work: seq<nat>, walked: set<nat>, b: nat)
    requires Indexed(code) && start <= b < cap && b !in code.at
    requires WalkedOk(code, start, cap, seen, work + [b], walked) && QueueOk(code, start, cap, seen, work + [b], walked)
    ensures WalkedOk(code, start, cap, seen + {b}, work, walked) && QueueOk(code, start, cap, seen + {b}, work, walked)
  {
    hide Reached, Falls, EndsBlock, TargetInside;
    forall t: nat | t in work ensures t in work + [b] {}
  }

  lemma WalkedMarks(code: Code, start: nat, cap: nat, seen: set<nat>, work: seq<nat>, walked: set<nat>, b: nat)
    requires Indexed(code) && WalkedOk(code, start, cap, seen, work + [b], walked)
    ensures WalkedOk(code, start, cap, seen + {b}, work, walked)
  {
    hide Reached, Falls, EndsBlock, TargetInside;
  }
}
