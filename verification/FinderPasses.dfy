/** The finder's passes over its dictionary of ranges, and the whole run. */
module FinderPasses {
  import opened Common
  import opened PpuCode
  import opened FunctionExtents
  import opened FunctionFinder

  ghost predicate IsCall(code: Code, k: nat, t: nat)
    requires k < |code.insns|
  {
    BlTarget(code.insns[k]) == Some(t)
  }

  method CallTargets(code: Code, starts: seq<nat>, f: Ranges) returns (targets: set<nat>)
    requires Lists(starts, f.Keys)
    ensures forall t :: t in targets <==> CallTarget(code, f, t)
  {
    hide Covered, BlTarget, Lists;
    targets := {};
    for j := 0 to |code.insns|
      invariant forall t :: t in targets ==> CallTarget(code, f, t)
      invariant forall k, t {:trigger IsCall(code, k, t)} ::
        0 <= k < j && IsCall(code, k, t) && Covered(f, code.insns[k].addr) && !Covered(f, t) && t !in f ==> t in targets
    {
      var from := Covers(starts, f, code.insns[j].addr);
      var t := BlTarget(code.insns[j]);
      if from && t.Some? {
        var inside := Covers(starts, f, t.value);
        if !inside && t.value !in f { targets := targets + {t.value}; }
      }
    }
    forall t | CallTarget(code, f, t) ensures t in targets {
      var k :| 0 <= k < |code.insns| && BlTarget(code.insns[k]) == Some(t) && Covered(f, code.insns[k].addr);
      assert IsCall(code, k, t);
    }
  }

  method BranchTargets(code: Code, starts: seq<nat>, f: Ranges) returns (targets: set<nat>)
    requires Lists(starts, f.Keys)
    ensures forall t :: t in targets <==> BranchTarget(code, f, t)
  {
    var all: set<nat> := {};
    for j := 0 to |code.insns|
      invariant forall t :: t in all <==>
        exists k :: 0 <= k < j && IsBranch(code.insns[k]) && t in code.insns[k].targets && Covered(f, code.insns[k].addr)
    {
      if IsBranch(code.insns[j]) {
        var from := Covers(starts, f, code.insns[j].addr);
        if from { all := all + set t | t in code.insns[j].targets; }
      }
    }
    targets := {};
    var rest := all;
    while rest != {}
      invariant rest <= all
      invariant forall t :: t in targets <==> t in all - rest && !Covered(f, t) && t !in f
      decreases rest
    {
      var t :| t in rest;
      var inside := Covers(starts, f, t);
      if !inside && t !in f { targets := targets + {t}; }
      rest := rest - {t};
    }
  }

  /** The end of the straight-line run at an address; the address itself if it is not decoded. */
  method BasicBlockEnd(code: Code, starts: set<nat>, t: nat) returns (end: nat)
    requires Indexed(code)
    ensures end == BlockEnd(code, starts, t) && (t in code.at ==> RunEndsAt(code, starts, t, end))
  {
    hide RunEndsAt;
    if t !in code.at { return t; }
    BlockEndIs(code, starts, t);
    var idx := code.at[t];
    var i := idx;
    while i < |code.insns|
      invariant idx <= i <= |code.insns|
      invariant RunEnd(code.insns, starts, idx, i) == BlockEnd(code, starts, t)
    {
      if i > idx && code.insns[i].addr in starts { return code.insns[i].addr; }
      if EndsRun(code.insns[i]) { return code.insns[i].addr + 4; }
      i := i + 1;
    }
    return code.insns[|code.insns| - 1].addr + 4;
  }

  class Finder {
    const code: Code
    const seeds: set<nat>
    var functions: Ranges

    constructor (insns: seq<Insn>, seeds: set<nat>)
      ensures this.code.insns == insns && Indexed(this.code) && this.seeds == seeds && functions == map[]
    {
      var built := BuildIndex(insns);
      this.code := built;
      this.seeds := seeds;
      functions := map[];
    }

    method ApplySeeds() returns (added: nat)
      requires Indexed(code)
      modifies this
      ensures Seeded(code, seeds, old(functions), functions)
      ensures added == |LiveSeeds(code, seeds, old(functions))|
    {
      hide SeedEnd, SeededSoFar, NextStart, LiveSeeds, Lists, Seeded, Indexed;
      var f := functions;
      var live := LiveSeeds(code, seeds, f);
      var allStarts := Sorted(f.Keys + live);
      var rest := live;
      added := 0;
      NothingSeeded(code, f, live);
      assert live - rest == {};
      while rest != {}
        invariant rest <= live && added == |live| - |rest|
        invariant SeededSoFar(code, f, live, live - rest, functions)
        decreases rest
      {
        var addr :| addr in rest;
        LiveSeedIs(code, seeds, f, addr);
        var k := BisectRight(allStarts, addr);
        var next := if k < |allStarts| then Some(allStarts[k]) else None;
        NextIsUnique(allStarts, f.Keys + live, addr, k);
        var end := FindSeedEnd(addr, next);
        SeedOne(code, f, live, live - rest, functions, addr, next);
        assert live - (rest - {addr}) == live - rest + {addr};
        functions := functions[addr := end];
        added := added + 1;
        rest := rest - {addr};
      }
      assert live - rest == live;
      AllSeeded(code, seeds, f, live, functions);
    }

    method FindSeedEnd(addr: nat, next: Option<nat>) returns (end: nat)
      requires Indexed(code) && addr in code.at
      ensures end == SeedEnd(code, addr, next) && SeedEndsAt(code, addr, next, end)
    {
      hide SeedEndsAt;
      SeedEndIs(code, addr, next);
      var idx := code.at[addr];
      var stop := Least(idx + 2000, |code.insns|);
      var found: Option<nat> := None;
      var j := idx;
      while j < stop
        invariant idx <= j <= stop
        invariant found.None? && SeedScan(code.insns, j, stop, next) == SeedScan(code.insns, idx, stop, next)
      {
        var cur := code.insns[j];
        if next.Some? && cur.addr >= next.value {
          found := next;
          break;
        }
        if cur.kind == Blr {
          found := Some(cur.addr + 4);
          break;
        }
        j := j + 1;
      }
      end := if found.Some? then found.value else if next.Some? then next.value else addr + 4;
      if end < addr + 4 { end := addr + 4; }
    }

    method DropPrologueSlivers(calls: set<nat>) returns (dropped: nat)
      requires Indexed(code)
      modifies this
      ensures Pruned(code, seeds, calls, old(functions), functions)
      ensures dropped == |old(functions)| - |functions|
    {
      hide Sliver;
      var f := functions;
      dropped := 0;
      if seeds == {} {
        NoSeedsNoSlivers(code, calls);
        return;
      }
      var seedSorted := Sorted(seeds);
      var rest := f.Keys;
      while rest != {}
        invariant rest <= f.Keys && functions.Keys <= f.Keys && dropped == |f.Keys| - |functions.Keys|
        invariant forall s :: s in functions ==> functions[s] == f[s]
        invariant forall s :: s in f && s in rest ==> s in functions
        invariant forall s :: s in f && s !in rest ==> (s in functions <==> !Sliver(code, seeds, calls, s))
        decreases rest
      {
        var start :| start in rest;
        rest := rest - {start};
        var sliver := IsSliver(seedSorted, calls, start);
        if sliver {
          functions := functions - {start};
          dropped := dropped + 1;
        }
      }
    }

    method IsSliver(seedSorted: seq<nat>, calls: set<nat>, start: nat) returns (yes: bool)
      requires Indexed(code) && Lists(seedSorted, seeds)
      ensures yes == Sliver(code, seeds, calls, start)
    {
      if start in seeds || start in calls { return false; }
      var n := BisectRight(seedSorted, start);
      if n == 0 { return false; }
      var seed := seedSorted[n - 1];
      LastSeed(seedSorted, seeds, start, n);
      if start - seed > 32 || seed !in code.at || start !in code.at { return false; }
      yes := true;
      var k := code.at[seed];
      while k < code.at[start]
        invariant k <= |code.insns| && (yes <==> Straight(code, code.at[seed], k))
        invariant if code.at[start] < code.at[seed] then k == code.at[seed] else code.at[seed] <= k <= code.at[start]
      {
        if code.insns[k].kind in {Blr, B, Rfid} { yes := false; }
        k := k + 1;
      }
    }

    method ExtendExtents() returns (grown: nat)
      requires Indexed(code)
      modifies this
      ensures Grown(code, old(functions), functions)
    {
      hide GrownSoFar, Furthest, Lists, CapOf;
      var f := functions;
      var starts := Sorted(f.Keys);
      grown := 0;
      NothingGrown(code, starts, f);
      for i := 0 to |starts|
        invariant GrownSoFar(code, starts, f, functions, i)
      {
        var start := starts[i];
        NotYetGrown(code, starts, f, functions, i);
        ghost var before := functions;
        var cap := CapOf(code, After(starts, i), start);
        if start in code.at {
          var maxEnd := FurthestReached(code, start, cap, f[start]);
          var newEnd := Least(maxEnd, cap);
          GrownBy(code, start, cap, f[start], maxEnd);
          if newEnd > f[start] {
            functions := functions[start := newEnd];
            grown := grown + 1;
          }
        } else {
          NotDecodedStays(code, start, cap, f[start]);
        }
        GrowOne(code, starts, f, before, functions, i, functions[start]);
      }
      AllGrown(code, starts, f, functions);
    }

    method FindCallTargetFunctions()
      requires Indexed(code)
      modifies this
      ensures CallsPromoted(code, old(functions), functions)
    {
      hide BlockEnd, CallTarget, Covered, CallsSoFar;
      var f := functions;
      var starts := Sorted(f.Keys);
      var targets := CallTargets(code, starts, f);
      var ts := Sorted(targets);
      CallTargetsAreNew(code, f, targets);
      NoCallsYet(code, f, ts);
      for i := 0 to |ts|
        invariant CallsSoFar(code, f, functions, ts, i)
      {
        var t := ts[i];
        assert t in targets;
        var end := BasicBlockEnd(code, functions.Keys, t);
        CallOne(code, f, functions, ts, i);
        if end > t { functions := functions[t := end]; }
      }
      AllCalls(code, f, functions, ts);
    }

    method FindBranchTargetFunctions()
      requires Indexed(code)
      modifies this
      ensures BranchesPromoted(code, seeds, old(functions), functions)
    {
      hide BranchEnd, BranchTarget, Covered, LooksLikeFunction, BranchesSoFar;
      var f := functions;
      var starts := Sorted(f.Keys);
      var targets := BranchTargets(code, starts, f);
      var ts := Sorted(targets);
      BranchTargetsAreNew(code, f, targets);
      NoBranchesYet(code, seeds, f, ts);
      for i := 0 to |ts|
        invariant BranchesSoFar(code, seeds, f, functions, ts, i)
      {
        var t := ts[i];
        assert t in targets;
        BranchOne(code, seeds, f, functions, ts, i);
        if LooksLikeFunction(code, seeds, t) {
          var end := FindBranchEnd(t);
          if end.Some? { functions := functions[t := end.value]; }
        }
      }
      AllBranches(code, seeds, f, functions, ts);
    }

    method FindBranchEnd(t: nat) returns (end: Option<nat>)
      requires Indexed(code)
      ensures end == BranchEnd(code, functions.Keys, t)
      ensures t in code.at ==> TargetEndsAt(code, functions.Keys, t, end)
    {
      hide TargetEndsAt;
      if t !in code.at { return None; }
      BranchEndIs(code, functions.Keys, t);
      var idx := code.at[t];
      var stop := Least(idx + 500, |code.insns|);
      var found: Option<nat> := None;
      var j := idx;
      while j < stop
        invariant idx <= j <= stop && found.None?
        invariant ReturnScan(code.insns, functions.Keys, t, j, stop) == ReturnScan(code.insns, functions.Keys, t, idx, stop)
      {
        var curr := code.insns[j];
        if curr.kind == Blr {
          found := Some(curr.addr + 4);
          break;
        }
        if curr.addr != t && curr.addr in functions {
          found := Some(curr.addr);
          break;
        }
        j := j + 1;
      }
      return if found.Some? && found.value >= t + 4 then found else None;
    }

    method ClipOverlaps() returns (clipped: nat)
      modifies this
      ensures Clipped(old(functions), functions)
    {
      hide ClippedSoFar, Lists;
      var f := functions;
      var starts := Sorted(f.Keys);
      clipped := 0;
      NothingClipped(starts, f);
      for i := 0 to |starts|
        invariant ClippedSoFar(starts, f, functions, i)
      {
        var start := starts[i];
        ClipOne(starts, f, functions, i);
        var next := After(starts, i);
        var end := functions[start];
        if next.Some? && end > next.value {
          end := next.value;
          clipped := clipped + 1;
        }
        if end <= start {
          end := if next.None? then start + 4 else Least(start + 4, next.value);
        }
        functions := functions[start := end];
      }
      AllClipped(starts, f, functions);
    }

    /** The passes after the two heuristic scans, whatever ranges those left: what each pass
        makes of what the one before it left, and what that comes to. */
    method Run() returns (ghost seeded: Ranges, ghost pruned: Ranges, ghost grown: Ranges, ghost called: Ranges, ghost branched: Ranges)
      requires Indexed(code)
      modifies this
      ensures seeds != {} ==> Seeded(code, seeds, old(functions), seeded)
      ensures seeds != {} ==> Pruned(code, seeds, AllBlTargets(code.insns), seeded, pruned)
      ensures seeds == {} ==> pruned == seeded == old(functions)
      ensures Grown(code, pruned, grown)
      ensures CallsPromoted(code, grown, called)
      ensures BranchesPromoted(code, seeds, called, branched)
      ensures Clipped(branched, functions)
      ensures Disjoint(functions)
      ensures forall s :: s in seeds && s in code.at ==> s in functions
      ensures forall s :: s in old(functions) && !Sliver(code, seeds, AllBlTargets(code.insns), s) ==> s in functions
      ensures (forall s :: s in old(functions) ==> s in code.at) ==> forall s :: s in functions ==> s in code.at
      ensures forall s, next: Option<nat> :: s in pruned && s in code.at && NextStart(pruned.Keys, s, next) && s < CapOf(code, next, s) ==>
        code.insns != [] && FinalEnd(code, s, next, pruned[s], functions[s])
      ensures forall a :: Covered(pruned, a) ==> Covered(functions, a)
      ensures Increasing(code.insns) ==> forall j :: 0 <= j < |code.insns| ==> CallLands(code, grown, functions, j)
    {
      hide Sliver, Covered, CallTarget, BranchTarget, LooksLikeFunction, BlockEnd, BranchEnd, FinalEnd, CapOf;
      seeded := functions;
      if seeds != {} {
        var added := ApplySeeds();
        seeded := functions;
        var dropped := DropPrologueSlivers(AllBlTargets(code.insns));
        SeedsSurvive(code, seeds, AllBlTargets(code.insns), old(functions), seeded, functions);
      }
      pruned := functions;
      var n := ExtendExtents();
      grown := functions;
      FindCallTargetFunctions();
      called := functions;
      FindBranchTargetFunctions();
      branched := functions;
      var clipped := ClipOverlaps();
      ClippedIsDisjoint(branched, functions);
      EndsAreFinal(code, pruned, grown, called, branched, functions);
      forall a | Covered(pruned, a) ensures Covered(functions, a) {
        GrowingKeepsCover(code, pruned, grown, a);
        StillCovered(grown, called, branched, functions, a);
      }
      if Increasing(code.insns) {
        forall j | 0 <= j < |code.insns| ensures CallLands(code, grown, functions, j) {
          CallIsCovered(code, grown, called, branched, functions, j);
        }
      }
    }
  }

  lemma NextIsUnique(starts: seq<nat>, keys: set<nat>, addr: nat, k: nat)
    requires Lists(starts, keys) && addr in keys && k <= |starts|
    requires (forall i :: 0 <= i < k ==> starts[i] <= addr) && forall i :: k <= i < |starts| ==> starts[i] > addr
    ensures NextStart(keys, addr, if k < |starts| then Some(starts[k]) else None)
  {
    forall x | x in keys && x > addr ensures k < |starts| && starts[k] <= x {
      var i :| 0 <= i < |starts| && starts[i] == x;
    }
    if k < |starts| { assert starts[k] in keys; }
  }

  // ----- one turn of each loop -----------------------------------------------------------

  ghost predicate SeededSoFar(code: Code, f: Ranges, live: set<nat>, done: set<nat>, g: Ranges)
    requires Indexed(code)
  {
    && g.Keys == f.Keys + done
    && (forall s :: s in f ==> g[s] == f[s])
    && forall s, next {:trigger NextStart(f.Keys + live, s, next)} ::
         s in done && NextStart(f.Keys + live, s, next) ==> s in code.at && g[s] == SeedEnd(code, s, next)
  }

  lemma NothingSeeded(code: Code, f: Ranges, live: set<nat>)
    requires Indexed(code)
    ensures SeededSoFar(code, f, live, {}, f)
  {
    assert f.Keys == f.Keys + {};
  }

  lemma SeedOne(code: Code, f: Ranges, live: set<nat>, done: set<nat>, g: Ranges, addr: nat, next: Option<nat>)
    requires Indexed(code) && SeededSoFar(code, f, live, done, g) && addr in live && addr !in done && addr !in f
    requires addr in code.at && NextStart(f.Keys + live, addr, next)
    ensures SeededSoFar(code, f, live, done + {addr}, g[addr := SeedEnd(code, addr, next)])
  {
    hide SeedEnd, NextStart;
    forall other | NextStart(f.Keys + live, addr, other) ensures other == next {
      SameNext(f.Keys + live, addr, other, next);
    }
  }

  lemma LiveSeedIs(code: Code, seeds: set<nat>, f: Ranges, s: nat)
    ensures s in LiveSeeds(code, seeds, f) ==> s in seeds && s in code.at && s !in f
  {
  }

  lemma AllSeeded(code: Code, seeds: set<nat>, f: Ranges, live: set<nat>, g: Ranges)
    requires Indexed(code) && live == LiveSeeds(code, seeds, f) && SeededSoFar(code, f, live, live, g)
    ensures Seeded(code, seeds, f, g)
  {
    hide SeedEnd, NextStart;
  }

  ghost predicate GrownSoFar(code: Code, starts: seq<nat>, f: Ranges, g: Ranges, i: nat)
    requires Indexed(code)
  {
    && g.Keys == f.Keys && i <= |starts|
    && (forall k :: 0 <= k < |starts| ==> starts[k] in f)
    && (forall k :: 0 <= k < i ==>
          GrownTo(code, starts[k], CapOf(code, After(starts, k), starts[k]), f[starts[k]], g[starts[k]]))
    && forall k :: i <= k < |starts| ==> g[starts[k]] == f[starts[k]]
  }

  lemma NothingGrown(code: Code, starts: seq<nat>, f: Ranges)
    requires Indexed(code) && Lists(starts, f.Keys)
    ensures GrownSoFar(code, starts, f, f, 0)
  {
    forall k | 0 <= k < |starts| ensures starts[k] in f {
      assert starts[k] in f.Keys;
    }
  }

  lemma NotYetGrown(code: Code, starts: seq<nat>, f: Ranges, g: Ranges, i: nat)
    requires Indexed(code) && GrownSoFar(code, starts, f, g, i) && i < |starts|
    ensures starts[i] in f && starts[i] in g && g[starts[i]] == f[starts[i]]
  {
  }

  lemma GrowOne(code: Code, starts: seq<nat>, f: Ranges, g: Ranges, h: Ranges, i: nat, end: nat)
    requires Indexed(code) && Lists(starts, f.Keys) && GrownSoFar(code, starts, f, g, i) && i < |starts|
    requires starts[i] in f && GrownTo(code, starts[i], CapOf(code, After(starts, i), starts[i]), f[starts[i]], end)
    requires h == g[starts[i] := end]
    ensures GrownSoFar(code, starts, f, h, i + 1)
  {
    hide GrownTo, CapOf, Indexed, After;
    assert forall k :: 0 <= k < i ==> starts[k] < starts[i];
    assert forall k :: i < k < |starts| ==> starts[i] < starts[k];
  }

  lemma GrownBy(code: Code, s: nat, cap: nat, was: nat, end: nat)
    requires Indexed(code) && s in code.at && Furthest(code, s, cap, was, end)
    ensures GrownTo(code, s, cap, was, if Least(end, cap) > was then Least(end, cap) else was)
  {
  }

  lemma NotDecodedStays(code: Code, s: nat, cap: nat, was: nat)
    requires Indexed(code)
    ensures s !in code.at ==> GrownTo(code, s, cap, was, was)
  {
  }

  ghost predicate ClippedSoFar(starts: seq<nat>, f: Ranges, g: Ranges, i: nat) {
    && g.Keys == f.Keys && i <= |starts|
    && (forall k :: 0 <= k < |starts| ==> starts[k] in f)
    && (forall k :: 0 <= k < i ==> g[starts[k]] == ClippedEnd(starts[k], f[starts[k]], After(starts, k)))
    && forall k :: i <= k < |starts| ==> g[starts[k]] == f[starts[k]]
  }

  lemma NothingClipped(starts: seq<nat>, f: Ranges)
    requires Lists(starts, f.Keys)
    ensures ClippedSoFar(starts, f, f, 0)
  {
    forall k | 0 <= k < |starts| ensures starts[k] in f {
      assert starts[k] in f.Keys;
    }
  }

  lemma ClipOne(starts: seq<nat>, f: Ranges, g: Ranges, i: nat)
    requires Lists(starts, f.Keys) && ClippedSoFar(starts, f, g, i) && i < |starts|
    ensures starts[i] in f && starts[i] in g && g[starts[i]] == f[starts[i]]
    ensures ClippedSoFar(starts, f, g[starts[i] := ClippedEnd(starts[i], f[starts[i]], After(starts, i))], i + 1)
  {
    hide ClippedEnd, After;
  }

  lemma NoSeedsNoSlivers(code: Code, calls: set<nat>)
    requires Indexed(code)
    ensures forall s :: !Sliver(code, {}, calls, s)
  {
  }

  lemma LastSeed(seedSorted: seq<nat>, seeds: set<nat>, start: nat, n: nat)
    requires Lists(seedSorted, seeds) && 0 < n <= |seedSorted|
    requires (forall i :: 0 <= i < n ==> seedSorted[i] <= start) && forall i :: n <= i < |seedSorted| ==> seedSorted[i] > start
    ensures LastStart(seeds, start, seedSorted[n - 1])
    ensures forall s :: LastStart(seeds, start, s) ==> s == seedSorted[n - 1]
  {
    forall k | k in seeds && k <= start ensures k <= seedSorted[n - 1] {
      var i :| 0 <= i < |seedSorted| && seedSorted[i] == k;
    }
  }

  lemma AllGrown(code: Code, starts: seq<nat>, f: Ranges, g: Ranges)
    requires Indexed(code) && Lists(starts, f.Keys)
    requires GrownSoFar(code, starts, f, g, |starts|)
    ensures Grown(code, f, g)
  {
    hide GrownTo, CapOf;
    forall s, next | s in f && NextStart(f.Keys, s, next) ensures GrownTo(code, s, CapOf(code, next, s), f[s], g[s]) {
      var k :| 0 <= k < |starts| && starts[k] == s;
      AfterIsNext(starts, f.Keys, k);
      SameNext(f.Keys, s, next, After(starts, k));
    }
  }

  lemma SameNext(keys: set<nat>, s: nat, a: Option<nat>, b: Option<nat>)
    requires NextStart(keys, s, a) && NextStart(keys, s, b)
    ensures a == b
  {
  }

  lemma AllClipped(starts: seq<nat>, f: Ranges, g: Ranges)
    requires Lists(starts, f.Keys) && ClippedSoFar(starts, f, g, |starts|)
    ensures Clipped(f, g)
  {
    forall s, next | s in f && NextStart(f.Keys, s, next) ensures g[s] == ClippedEnd(s, f[s], next) {
      var k :| 0 <= k < |starts| && starts[k] == s;
      AfterIsNext(starts, f.Keys, k);
      SameNext(f.Keys, s, next, After(starts, k));
    }
  }

  lemma CallTargetsAreNew(code: Code, f: Ranges, targets: set<nat>)
    requires forall t :: t in targets <==> CallTarget(code, f, t)
    ensures forall t :: t in targets ==> t !in f && !Covered(f, t)
  {
  }

  lemma BranchTargetsAreNew(code: Code, f: Ranges, targets: set<nat>)
    requires forall t :: t in targets <==> BranchTarget(code, f, t)
    ensures forall t :: t in targets ==> t !in f && !Covered(f, t)
  {
  }

  lemma BlockEndSame(code: Code, a: set<nat>, b: set<nat>, t: nat)
    requires Indexed(code) && Increasing(code.insns) && t in code.at && SameAbove(a, b, t)
    ensures BlockEnd(code, a, t) == BlockEnd(code, b, t) > t
  {
    RunEndSame(code.insns, a, b, code.at[t], code.at[t]);
  }

  ghost predicate CallsSoFar(code: Code, f: Ranges, g: Ranges, ts: seq<nat>, i: nat)
    requires Indexed(code)
  {
    && i <= |ts| && f.Keys <= g.Keys && (forall s :: s in f ==> g[s] == f[s])
    && (forall s :: s in g && s !in f ==> s in code.at && g[s] > s && s in ts[..i])
    && (Increasing(code.insns) ==> forall k :: 0 <= k < i && ts[k] in code.at ==>
          ts[k] in g && g[ts[k]] == BlockEnd(code, f.Keys, ts[k]))
  }

  lemma NoCallsYet(code: Code, f: Ranges, ts: seq<nat>)
    requires Indexed(code)
    ensures CallsSoFar(code, f, f, ts, 0)
  {
  }

  /** The starts added so far are below the next target, so its run ends as it would have. */
  lemma CallOne(code: Code, f: Ranges, g: Ranges, ts: seq<nat>, i: nat)
    requires Indexed(code) && CallsSoFar(code, f, g, ts, i) && i < |ts| && Ascending(ts) && ts[i] !in f
    ensures var t, end := ts[i], BlockEnd(code, g.Keys, ts[i]);
      CallsSoFar(code, f, if end > t then g[t := end] else g, ts, i + 1)
  {
    hide BlockEnd, Increasing, Indexed;
    var t := ts[i];
    assert SameAbove(f.Keys, g.Keys, t);
    if Increasing(code.insns) && t in code.at { BlockEndSame(code, f.Keys, g.Keys, t); }
    if BlockEnd(code, g.Keys, t) > t { NotDecodedIsEmpty(code, g.Keys, t); }
    assert ts[..i + 1] == ts[..i] + [t];
  }

  lemma AllCalls(code: Code, f: Ranges, g: Ranges, ts: seq<nat>)
    requires Indexed(code) && CallsSoFar(code, f, g, ts, |ts|)
    requires forall t :: t in ts <==> CallTarget(code, f, t)
    ensures CallsPromoted(code, f, g)
  {
    hide BlockEnd, Increasing, Indexed, Covered;
    assert ts[..|ts|] == ts;
    forall t | CallTarget(code, f, t) ensures exists k :: 0 <= k < |ts| && ts[k] == t {
      assert t in ts;
    }
  }

  ghost predicate BranchesSoFar(code: Code, seeds: set<nat>, f: Ranges, g: Ranges, ts: seq<nat>, i: nat)
    requires Indexed(code)
  {
    && i <= |ts| && f.Keys <= g.Keys && (forall s :: s in f ==> g[s] == f[s])
    && (forall s :: s in g && s !in f ==> s in code.at && g[s] > s && s in ts[..i] && LooksLikeFunction(code, seeds, s))
    && (Increasing(code.insns) ==> forall k :: 0 <= k < i && LooksLikeFunction(code, seeds, ts[k]) ==>
          Takes(g, ts[k], BranchEnd(code, f.Keys, ts[k])))
  }

  ghost predicate Takes(g: Ranges, t: nat, end: Option<nat>) {
    (t in g <==> end.Some?) && (t in g ==> g[t] == end.value)
  }

  lemma NoBranchesYet(code: Code, seeds: set<nat>, f: Ranges, ts: seq<nat>)
    requires Indexed(code)
    ensures BranchesSoFar(code, seeds, f, f, ts, 0)
  {
  }

  lemma BranchOne(code: Code, seeds: set<nat>, f: Ranges, g: Ranges, ts: seq<nat>, i: nat)
    requires Indexed(code) && BranchesSoFar(code, seeds, f, g, ts, i) && i < |ts| && Ascending(ts) && ts[i] !in f
    ensures var t, end := ts[i], BranchEnd(code, g.Keys, ts[i]);
      BranchesSoFar(code, seeds, f, if LooksLikeFunction(code, seeds, t) && end.Some? then g[t := end.value] else g, ts, i + 1)
  {
    hide BranchEnd, Increasing, Indexed, LooksLikeFunction;
    var t := ts[i];
    assert SameAbove(f.Keys, g.Keys, t);
    if Increasing(code.insns) { BranchEndSame(code, f.Keys, g.Keys, t); }
    if BranchEnd(code, g.Keys, t).Some? { BranchEndBounds(code, g.Keys, t); }
    assert ts[..i + 1] == ts[..i] + [t];
  }

  lemma AllBranches(code: Code, seeds: set<nat>, f: Ranges, g: Ranges, ts: seq<nat>)
    requires Indexed(code) && BranchesSoFar(code, seeds, f, g, ts, |ts|)
    requires forall t :: t in ts <==> BranchTarget(code, f, t)
    ensures BranchesPromoted(code, seeds, f, g)
  {
    hide BranchEnd, Increasing, Indexed, LooksLikeFunction, Covered;
    assert ts[..|ts|] == ts;
    forall t | BranchTarget(code, f, t) ensures exists k :: 0 <= k < |ts| && ts[k] == t {
      assert t in ts;
    }
  }

  lemma NotDecodedIsEmpty(code: Code, starts: set<nat>, t: nat)
    requires Indexed(code) && BlockEnd(code, starts, t) > t
    ensures t in code.at
  {
  }

  lemma BranchEndSame(code: Code, a: set<nat>, b: set<nat>, t: nat)
    requires Indexed(code) && Increasing(code.insns) && SameAbove(a, b, t)
    ensures BranchEnd(code, a, t) == BranchEnd(code, b, t)
  {
    if t in code.at {
      ReturnScanSame(code.insns, a, b, t, code.at[t], Least(code.at[t] + 500, |code.insns|));
    }
  }

  lemma BranchEndBounds(code: Code, starts: set<nat>, t: nat)
    requires Indexed(code) && BranchEnd(code, starts, t).Some?
    ensures t in code.at && BranchEnd(code, starts, t).value > t
  {
  }

  lemma SeedsSurvive(code: Code, seeds: set<nat>, calls: set<nat>, f: Ranges, seeded: Ranges, g: Ranges)
    requires Indexed(code) && Seeded(code, seeds, f, seeded) && Pruned(code, seeds, calls, seeded, g)
    ensures forall s :: s in seeds && s in code.at ==> s in g
    ensures forall s :: s in f && !Sliver(code, seeds, calls, s) ==> s in g
    ensures forall s :: s in g ==> s in f || s in code.at
  {
    forall s | s in seeds && s in code.at ensures s in g {
      assert s in f || s in LiveSeeds(code, seeds, f);
    }
  }

  lemma StillCovered(grown: Ranges, called: Ranges, branched: Ranges, clipped: Ranges, a: nat)
    requires Promoted(grown, called) && Promoted(called, branched) && Clipped(branched, clipped) && Covered(grown, a)
    ensures Covered(clipped, a)
  {
    PromotionKeepsCover(grown, called, a);
    PromotionKeepsCover(called, branched, a);
    ClippingKeepsCover(branched, clipped, a);
  }

  lemma GrowingKeepsCover(code: Code, f: Ranges, g: Ranges, a: nat)
    requires Indexed(code) && Grown(code, f, g) && Covered(f, a)
    ensures Covered(g, a)
  {
    hide Furthest;
    var s :| LastStart(f.Keys, a, s) && a < f[s];
    SomeNextOrNone(f.Keys, s);
    var next :| NextStart(f.Keys, s, next);
    assert GrownTo(code, s, CapOf(code, next, s), f[s], g[s]);
  }

  lemma SomeNextOrNone(keys: set<nat>, s: nat)
    ensures exists next :: NextStart(keys, s, next)
  {
    if k :| k in keys && k > s {
      SomeNext(keys, s, k);
      var m: nat :| NextStart(keys, s, Some(m));
    } else {
      assert NextStart(keys, s, None);
    }
  }

  // ----- where the functions end ---------------------------------------------------------

  /** One past the furthest instruction the function reaches within its bound, the next
      start it had at the extent pass; the last function is not cut back to the bound. */
  ghost predicate FinalEnd(code: Code, s: nat, next: Option<nat>, was: nat, now: nat)
    requires Indexed(code) && code.insns != []
  {
    EndsWithin(code, s, if next.Some? then next.value else code.insns[|code.insns| - 1].addr + 4, next == None, was, now)
  }

  ghost predicate EndsWithin(code: Code, s: nat, cap: nat, last: bool, was: nat, now: nat)
    requires Indexed(code)
  {
    exists end :: Furthest(code, s, cap, was, end) && now == if last && Least(end, cap) < was then was else Least(end, cap)
  }

  /** A start added where nothing was covered lies past the end of the function before it. */
  lemma AddedPastEnd(f: Ranges, g: Ranges, s: nat, m: nat)
    requires Promoted(f, g) && s in f && m in g && m !in f && NextStart(g.Keys, s, Some(m))
    ensures f[s] <= m
  {
    assert LastStart(f.Keys, m, s);
  }

  /** The starts added by promotion cut no function short. */
  lemma PromotionsCutNothing(grown: Ranges, called: Ranges, branched: Ranges, final: Ranges, s: nat, next: Option<nat>)
    requires Promoted(grown, called) && Promoted(called, branched) && Clipped(branched, final)
    requires s in grown && s < grown[s] && NextStart(grown.Keys, s, next)
    ensures final[s] == ClippedEnd(s, grown[s], next)
  {
    hide Covered;
    SomeNextOrNone(branched.Keys, s);
    var after :| NextStart(branched.Keys, s, after);
    assert final[s] == ClippedEnd(s, grown[s], after);
    match after
    case None => assert next == None;
    case Some(m) =>
      if m in grown {
        SameNext(grown.Keys, s, next, after);
      } else {
        if m in called { AddedPastEnd(grown, called, s, m); } else { AddedPastEnd(called, branched, s, m); }
      }
  }

  lemma ReachesItself(code: Code, s: nat, cap: nat)
    requires Indexed(code) && s in code.at && s < cap
    ensures Reached(code, s, cap, code.at[s])
  {
    assert Path(code, s, cap, [code.at[s]]);
  }

  lemma GrownIsNonempty(code: Code, s: nat, cap: nat, was: nat, end: nat)
    requires Indexed(code) && s in code.at && s < cap && Furthest(code, s, cap, was, end)
    ensures s + 4 <= end
  {
    ReachesItself(code, s, cap);
  }

  lemma EndsAreFinal(code: Code, pruned: Ranges, grown: Ranges, called: Ranges, branched: Ranges, final: Ranges)
    requires Indexed(code) && Grown(code, pruned, grown)
    requires Promoted(grown, called) && Promoted(called, branched) && Clipped(branched, final)
    ensures forall s, next: Option<nat> :: s in pruned && s in code.at && NextStart(pruned.Keys, s, next) && s < CapOf(code, next, s) ==>
      s in final && code.insns != [] && FinalEnd(code, s, next, pruned[s], final[s])
  {
    hide Furthest, Covered;
    forall s, next: Option<nat> | s in pruned && s in code.at && NextStart(pruned.Keys, s, next) && s < CapOf(code, next, s)
      ensures s in final && code.insns != [] && FinalEnd(code, s, next, pruned[s], final[s])
    {
      assert code.insns != [];
      var cap: nat := if next.Some? then next.value else code.insns[|code.insns| - 1].addr + 4;
      assert CapOf(code, next, s) == cap;
      assert GrownTo(code, s, cap, pruned[s], grown[s]);
      var end :| Furthest(code, s, cap, pruned[s], end)
                 && grown[s] == (if Least(end, cap) > pruned[s] then Least(end, cap) else pruned[s]);
      GrownIsNonempty(code, s, cap, pruned[s], end);
      assert pruned[s] <= end by { AtLeastKnown(code, s, cap, pruned[s], end); }
      PromotionsCutNothing(grown, called, branched, final, s, next);
      assert EndsWithin(code, s, cap, next == None, pruned[s], final[s]);
    }
  }

  lemma AtLeastKnown(code: Code, s: nat, cap: nat, was: nat, end: nat)
    requires Indexed(code) && Furthest(code, s, cap, was, end)
    ensures was <= end
  {
  }

  /** A call from covered code to a decoded address leads into some range. */
  ghost predicate CallLands(code: Code, grown: Ranges, final: Ranges, j: nat)
    requires j < |code.insns|
  {
    forall t :: BlTarget(code.insns[j]) == Some(t) && Covered(grown, code.insns[j].addr) && t in code.at ==> Covered(final, t)
  }

  lemma CallIsCovered(code: Code, f: Ranges, called: Ranges, branched: Ranges, final: Ranges, j: nat)
    requires Indexed(code) && Increasing(code.insns) && CallsPromoted(code, f, called) && Promoted(called, branched)
    requires Clipped(branched, final) && Disjoint(final) && j < |code.insns|
    ensures CallLands(code, f, final, j)
  {
    hide Covered, BlockEnd, Disjoint, Indexed, Increasing;
    forall t | BlTarget(code.insns[j]) == Some(t) && Covered(f, code.insns[j].addr) && t in code.at
      ensures Covered(final, t)
    {
      if Covered(f, t) {
        StillCovered(f, called, branched, final, t);
      } else {
        if t !in f { assert CallTarget(code, f, t); }
        assert t in called && t in branched && t in final;
        StartIsCovered(final, t);
      }
    }
  }

  lemma StartIsCovered(f: Ranges, s: nat)
    requires Disjoint(f) && s in f
    ensures Covered(f, s)
  {
    assert LastStart(f.Keys, s, s);
  }
}
