/**
 The live sets by paths, and the search that shows one.

 ReadPath is the reference: control follows edges of the image, through calls into
 their callees, until a statement reads the register. It does not mention live sets.
 WitnessPath is what the search looks for: it stays in one image level and stops at a
 call whose callee has the register live at its entry.
 */
module SpuWitness {
  import opened Common
  import opened SpuFlow

  /** Statement i puts an end to the value r had before it. */
  predicate Kills(p: Program, i: nat, r: Reg)
    requires i < |p.stmts|
  {
    p.stmts[i].write == Some(r) || (p.stmts[i].kind == Call && r in CALL_KILL)
  }

  predicate ReadsItself(p: Program, i: nat, r: Reg)
    requires i < |p.stmts|
  {
    var st := p.stmts[i];
    r in st.uses || st.kind == Unknown || (st.kind in {Ret, CondRet} && r in p.retLive)
  }

  ghost predicate LeavesImage(p: Program, i: nat, r: Reg)
    requires WellFormed(p) && i < |p.stmts|
  {
    Anywhere in Succs(p, i) && !Kills(p, i, r)
  }

  /** The callee of the call at i, if i is a call that passes r on to it. */
  ghost function CalleeOf(p: Program, i: nat, r: Reg): Option<Succ>
    requires WellFormed(p) && i < |p.stmts|
  {
    assert WellFormedStmt(p, p.stmts[i]);
    if p.stmts[i].kind == Call && r != 0 then Some(SuccOf(p, p.stmts[i].targets[0])) else None
  }

  ghost predicate Edge(p: Program, i: nat, j: nat, r: Reg)
    requires WellFormed(p) && i < |p.stmts|
  {
    (To(j) in Succs(p, i) && !Kills(p, i, r)) || CalleeOf(p, i, r) == Some(To(j))
  }

  ghost predicate EndsInRead(p: Program, i: nat, r: Reg)
    requires WellFormed(p) && i < |p.stmts|
  {
    ReadsItself(p, i, r) || LeavesImage(p, i, r) || CalleeOf(p, i, r) == Some(Anywhere)
  }

  ghost predicate ReadPath(p: Program, path: seq<nat>, r: Reg)
    requires WellFormed(p)
  {
    && |path| > 0
    && (forall k :: 0 <= k < |path| ==> path[k] < |p.stmts|)
    && (forall k :: 0 <= k < |path| - 1 ==> Edge(p, path[k], path[k + 1], r))
    && EndsInRead(p, path[|path| - 1], r)
  }

  ghost predicate MayBeRead(p: Program, i: nat, r: Reg)
    requires WellFormed(p)
  {
    exists path :: ReadPath(p, path, r) && path[0] == i
  }

  // ----- the live sets are exactly the registers some path reads -------------

  lemma EdgeKeepsLive(p: Program, live: Live, i: nat, j: nat, r: Reg)
    requires Solution(p, live) && i < |p.stmts| && j < |p.stmts|
    requires Edge(p, i, j, r) && r in live[j]
    ensures r in live[i]
  {
    assert WellFormedStmt(p, p.stmts[i]);
    assert live[i] == Transfer(p, live, i);
    if To(j) in Succs(p, i) && !Kills(p, i, r) {
      assert r in ReachedLive(p, live, i, To(j));
    }
  }

  lemma ReadIsLive(p: Program, live: Live, i: nat, r: Reg)
    requires Solution(p, live) && i < |p.stmts| && EndsInRead(p, i, r)
    ensures r in live[i]
  {
    assert WellFormedStmt(p, p.stmts[i]);
    assert live[i] == Transfer(p, live, i);
    if LeavesImage(p, i, r) {
      assert r in ReachedLive(p, live, i, Anywhere);
    }
  }

  lemma {:induction false} PathStartIsLive(p: Program, live: Live, path: seq<nat>, r: Reg)
    requires Solution(p, live) && ReadPath(p, path, r)
    ensures r in live[path[0]]
    decreases |path|
  {
    if |path| == 1 {
      ReadIsLive(p, live, path[0], r);
    } else {
      assert Edge(p, path[0], path[1], r);
      assert forall k :: 0 <= k < |path| - 2 ==> Edge(p, path[1..][k], path[1..][k + 1], r);
      PathStartIsLive(p, live, path[1..], r);
      EdgeKeepsLive(p, live, path[0], path[1], r);
    }
  }

  lemma ExtendRead(p: Program, i: nat, j: nat, r: Reg)
    requires WellFormed(p) && i < |p.stmts| && j < |p.stmts|
    requires Edge(p, i, j, r) && MayBeRead(p, j, r)
    ensures MayBeRead(p, i, r)
  {
    var path :| ReadPath(p, path, r) && path[0] == j;
    var longer := [i] + path;
    forall k | 0 <= k < |longer| - 1 ensures Edge(p, longer[k], longer[k + 1], r) {
      if k > 0 { assert Edge(p, path[k - 1], path[k], r); }
    }
    assert ReadPath(p, longer, r) && longer[0] == i;
  }

  lemma ReadNow(p: Program, i: nat, r: Reg)
    requires WellFormed(p) && i < |p.stmts| && EndsInRead(p, i, r)
    ensures MayBeRead(p, i, r)
  {
    assert ReadPath(p, [i], r) && [i][0] == i;
  }

  ghost function ReadableSets(p: Program): (sets: Live)
    requires WellFormed(p)
    ensures |sets| == |p.stmts|
    ensures forall i, r :: 0 <= i < |sets| ==> (r in sets[i] <==> MayBeRead(p, i, r))
  {
    seq(|p.stmts|, i requires 0 <= i < |p.stmts| => set r: Reg | r in ALL_REGS && MayBeRead(p, i, r))
  }

  /** The registers read on some path ask for nothing more under the equations. */
  lemma ReadableSetsClosed(p: Program)
    requires WellFormed(p)
    ensures Closed(p, ReadableSets(p))
  {
    var sets := ReadableSets(p);
    forall i, r | 0 <= i < |sets| && r in Transfer(p, sets, i) ensures r in sets[i] {
      assert WellFormedStmt(p, p.stmts[i]);
      if EndsInRead(p, i, r) {
        ReadNow(p, i, r);
      } else if CalleeOf(p, i, r).Some? && r in EntryLive(p, sets, p.stmts[i].targets[0]) {
        ExtendRead(p, i, CalleeOf(p, i, r).value.index, r);
      } else {
        assert r in LiveOut(p, sets, i) && !Kills(p, i, r);
        var s :| s in Succs(p, i) && r in ReachedLive(p, sets, i, s);
        SuccsInRange(p, i, s);
        ExtendRead(p, i, s.index, r);
      }
    }
  }

  /** A register is in the least solution exactly when some path reads it before
      anything overwrites it. */
  lemma LiveIffSomePathReads(p: Program, live: Live, i: nat, r: Reg)
    requires LeastSolution(p, live) && i < |p.stmts|
    ensures r in live[i] <==> MayBeRead(p, i, r)
  {
    if MayBeRead(p, i, r) {
      var path :| ReadPath(p, path, r) && path[0] == i;
      PathStartIsLive(p, live, path, r);
    }
    ReadableSetsClosed(p);
    assert Below(live, ReadableSets(p));
    assert live[i] <= ReadableSets(p)[i];
  }

  // ----- the search ----------------------------------------------------------

  /** The test that ends the search at statement i. */
  ghost predicate SearchStops(p: Program, live: Live, i: nat, r: Reg)
    requires WellFormed(p) && i < |p.stmts| == |live|
  {
    assert WellFormedStmt(p, p.stmts[i]);
    || ReadsItself(p, i, r)
    || (p.stmts[i].kind == Call && r in EntryLive(p, live, p.stmts[i].targets[0]))
  }

  /** A path the search reports: every step is to a successor, no statement before the
      last one kills r, and the last one stops the search. */
  ghost predicate WitnessPath(p: Program, live: Live, path: seq<nat>, r: Reg)
    requires WellFormed(p) && |live| == |p.stmts|
  {
    && |path| > 0
    && (forall k :: 0 <= k < |path| ==> path[k] < |p.stmts|)
    && (forall k :: 0 <= k < |path| - 1 ==> To(path[k + 1]) in Succs(p, path[k]) && !Kills(p, path[k], r))
    && (SearchStops(p, live, path[|path| - 1], r) || LeavesImage(p, path[|path| - 1], r))
  }

  ghost predicate HasWitness(p: Program, live: Live, i: nat, r: Reg)
    requires WellFormed(p) && |live| == |p.stmts|
  {
    exists path :: WitnessPath(p, live, path, r) && path[0] == i
  }

  lemma {:induction false} WitnessStartIsLive(p: Program, live: Live, path: seq<nat>, r: Reg)
    requires Solution(p, live) && WitnessPath(p, live, path, r)
    requires r != 0 || !CallReadsLink(p, live)
    ensures r in live[path[0]]
    decreases |path|
  {
    var i := path[0];
    assert WellFormedStmt(p, p.stmts[i]);
    assert live[i] == Transfer(p, live, i);
    if |path| == 1 {
      if r == 0 { assert !ReadsLinkAt(p, live, i); }
      if EndsInRead(p, i, r) { ReadIsLive(p, live, i, r); }
    } else {
      assert To(path[1]) in Succs(p, path[0]) && !Kills(p, path[0], r);
      WitnessStartIsLive(p, live, path[1..], r);
      EdgeKeepsLive(p, live, i, path[1], r);
    }
  }

  /** Some call's callee reads r0 at its entry: the link the call itself writes. */
  ghost predicate CallReadsLink(p: Program, live: Live)
    requires WellFormed(p) && |live| == |p.stmts|
  {
    exists i :: 0 <= i < |p.stmts| && ReadsLinkAt(p, live, i)
  }

  ghost predicate ReadsLinkAt(p: Program, live: Live, i: nat)
    requires WellFormed(p) && i < |p.stmts| == |live|
  {
    assert WellFormedStmt(p, p.stmts[i]);
    p.stmts[i].kind == Call && 0 in EntryLive(p, live, p.stmts[i].targets[0])
  }

  ghost function WitnessedSets(p: Program, live: Live): (sets: Live)
    requires WellFormed(p) && |live| == |p.stmts|
    ensures |sets| == |p.stmts|
    ensures forall i, r :: 0 <= i < |sets| ==> (r in sets[i] <==> r in live[i] && HasWitness(p, live, i, r))
  {
    seq(|p.stmts|, i requires 0 <= i < |p.stmts| => set r: Reg | r in live[i] && HasWitness(p, live, i, r))
  }

  lemma WitnessExtends(p: Program, live: Live, i: nat, path: seq<nat>, r: Reg)
    requires Solution(p, live) && i < |p.stmts| && WitnessPath(p, live, path, r)
    requires To(path[0]) in Succs(p, i) && !Kills(p, i, r)
    ensures WitnessPath(p, live, [i] + path, r)
  {
    hide Succs, Kills, SearchStops;
    var longer := [i] + path;
    forall k | 0 <= k < |longer| - 1
      ensures To(longer[k + 1]) in Succs(p, longer[k]) && !Kills(p, longer[k], r)
    {
      if k > 0 { assert To(path[k]) in Succs(p, path[k - 1]); }
    }
  }

  /** A register the transfer function passes back from a successor is not written here. */
  lemma PassedBack(p: Program, live: Live, sets: Live, i: nat, r: Reg)
    requires Solution(p, live) && |sets| == |live| && Below(sets, live) && i < |live|
    requires r in Transfer(p, sets, i) && !SearchStops(p, live, i, r) && !LeavesImage(p, i, r)
    ensures r in live[i] && !Kills(p, i, r)
    ensures exists j :: 0 <= j < |sets| && To(j) in Succs(p, i) && r in sets[j]
  {
    assert WellFormedStmt(p, p.stmts[i]);
    TransferMonotone(p, sets, live, i);
    assert live[i] == Transfer(p, live, i);
    assert r in LiveOut(p, sets, i) && !Kills(p, i, r);
    var s :| s in Succs(p, i) && r in ReachedLive(p, sets, i, s);
    SuccsInRange(p, i, s);
    assert s == To(s.index) && r in sets[s.index];
  }

  lemma WitnessedSetsClosed(p: Program, live: Live)
    requires Solution(p, live)
    ensures Closed(p, WitnessedSets(p, live))
  {
    hide Succs, Kills, SearchStops, LeavesImage;
    var sets := WitnessedSets(p, live);
    assert Below(sets, live);
    forall i, r | 0 <= i < |sets| && r in Transfer(p, sets, i) ensures r in sets[i] {
      if SearchStops(p, live, i, r) || LeavesImage(p, i, r) {
        TransferMonotone(p, sets, live, i);
        assert live[i] == Transfer(p, live, i);
        assert WitnessPath(p, live, [i], r) && [i][0] == i;
      } else {
        PassedBack(p, live, sets, i, r);
        var j :| 0 <= j < |sets| && To(j) in Succs(p, i) && r in sets[j];
        var path :| WitnessPath(p, live, path, r) && path[0] == j;
        WitnessExtends(p, live, i, path, r);
        assert ([i] + path)[0] == i;
      }
    }
  }

  lemma LiveHasWitness(p: Program, live: Live, i: nat, r: Reg)
    requires LeastSolution(p, live) && i < |p.stmts| && r in live[i]
    ensures HasWitness(p, live, i, r)
  {
    WitnessedSetsClosed(p, live);
    assert Below(live, WitnessedSets(p, live));
    assert live[i] <= WitnessedSets(p, live)[i];
  }

  /** For r1..r127 a witness exists exactly when the register is live. */
  lemma WitnessIffLive(p: Program, live: Live, i: nat, r: Reg)
    requires LeastSolution(p, live) && i < |p.stmts| && r != 0
    ensures HasWitness(p, live, i, r) <==> r in live[i]
  {
    if HasWitness(p, live, i, r) {
      var path :| WitnessPath(p, live, path, r) && path[0] == i;
      WitnessStartIsLive(p, live, path, r);
    } else if r in live[i] {
      LiveHasWitness(p, live, i, r);
    }
  }

  /** For r0 the search is exact at every statement if and only if no call goes to a
      callee that has r0 live at its entry. The transfer equation of a call knows that
      the link overwrites r0 first; the search does not. */
  lemma LinkWitnessExactIff(p: Program, live: Live)
    requires LeastSolution(p, live)
    ensures (forall i :: 0 <= i < |p.stmts| ==> (HasWitness(p, live, i, 0) <==> 0 in live[i]))
            <==> !CallReadsLink(p, live)
  {
    if CallReadsLink(p, live) {
      var i :| 0 <= i < |p.stmts| && ReadsLinkAt(p, live, i);
      assert WellFormedStmt(p, p.stmts[i]);
      assert WitnessPath(p, live, [i], 0) && [i][0] == i;
      assert live[i] == Transfer(p, live, i);
      assert HasWitness(p, live, i, 0) && 0 !in live[i];
    } else {
      forall i | 0 <= i < |p.stmts| ensures HasWitness(p, live, i, 0) <==> 0 in live[i] {
        if HasWitness(p, live, i, 0) {
          var path :| WitnessPath(p, live, path, 0) && path[0] == i;
          WitnessStartIsLive(p, live, path, 0);
        } else if 0 in live[i] {
          LiveHasWitness(p, live, i, 0);
        }
      }
    }
  }

  // ----- what the search keeps ------------------------------------------------

  /** A walk from i0 along successors that r survives. */
  ghost predicate Walk(p: Program, walk: seq<nat>, i0: nat, r: Reg)
    requires WellFormed(p)
  {
    && |walk| > 0 && walk[0] == i0
    && (forall k :: 0 <= k < |walk| ==> walk[k] < |p.stmts|)
    && (forall k :: 0 <= k < |walk| - 1 ==> To(walk[k + 1]) in Succs(p, walk[k]) && !Kills(p, walk[k], r))
  }

  lemma WalkExtends(p: Program, walk: seq<nat>, i0: nat, j: nat, r: Reg)
    requires WellFormed(p) && Walk(p, walk, i0, r) && j < |p.stmts|
    requires To(j) in Succs(p, walk[|walk| - 1]) && !Kills(p, walk[|walk| - 1], r)
    ensures Walk(p, walk + [j], i0, r)
  {
  }

  /** Statement i has been searched without success: it does not stop the search, and
      every way r survives it leads to a statement already found. */
  ghost predicate Exhausted(p: Program, live: Live, found: set<nat>, i: nat, r: Reg)
    requires WellFormed(p) && i < |p.stmts| == |live|
  {
    && !SearchStops(p, live, i, r) && !LeavesImage(p, i, r)
    && (!Kills(p, i, r) ==> forall j {:trigger To(j) in Succs(p, i)} :: To(j) in Succs(p, i) ==> j in found)
  }

  lemma {:induction false} ExhaustedHasNoWitness(p: Program, live: Live, found: set<nat>, path: seq<nat>, r: Reg)
    requires WellFormed(p) && |live| == |p.stmts|
    requires forall i :: i in found ==> i < |p.stmts| && Exhausted(p, live, found, i, r)
    requires |path| > 0 && path[0] in found
    ensures !WitnessPath(p, live, path, r)
    decreases |path|
  {
    if |path| > 1 && WitnessPath(p, live, path, r) {
      assert To(path[1]) in Succs(p, path[0]) && !Kills(p, path[0], r);
      ExhaustedHasNoWitness(p, live, found, path[1..], r);
      assert WitnessPath(p, live, path[1..], r);
    }
  }

  /** The predecessor links, each with the walk from i0 it stands for. */
  ghost predicate Links(p: Program, prev: map<nat, Option<nat>>, walks: map<nat, seq<nat>>, i0: nat, r: Reg)
    requires WellFormed(p)
  {
    && walks.Keys == prev.Keys
    && forall k {:trigger LinkAt(p, prev, walks, i0, r, k)} :: k in prev ==> LinkAt(p, prev, walks, i0, r, k)
  }

  ghost predicate LinkAt(p: Program, prev: map<nat, Option<nat>>, walks: map<nat, seq<nat>>, i0: nat, r: Reg, k: nat)
    requires WellFormed(p) && k in prev && walks.Keys == prev.Keys
  {
    && Walk(p, walks[k], i0, r) && walks[k][|walks[k]| - 1] == k
    && (prev[k].None? ==> walks[k] == [k])
    && (prev[k].Some? ==> prev[k].value in prev && walks[k] == walks[prev[k].value] + [k])
  }

  ghost predicate Listed(order: seq<nat>, k: nat) {
    k in order
  }

  /** The statements found so far, in the order they were found. */
  ghost predicate Found(p: Program, prev: map<nat, Option<nat>>, walks: map<nat, seq<nat>>,
                        order: seq<nat>, i0: nat, r: Reg)
    requires WellFormed(p)
  {
    && NoRepeats(order) && i0 in prev
    && (forall k {:trigger k in order} :: k in order ==> k < |p.stmts| && k in prev)
    && (forall k {:trigger Listed(order, k)} :: k in prev ==> Listed(order, k))
    && Links(p, prev, walks, i0, r)
  }

  lemma FoundStart(p: Program, i0: nat, r: Reg)
    requires WellFormed(p) && i0 < |p.stmts|
    ensures Found(p, map[i0 := None], map[i0 := [i0]], [i0], i0, r)
  {
  }

  lemma FoundBound(p: Program, prev: map<nat, Option<nat>>, walks: map<nat, seq<nat>>,
                   order: seq<nat>, i0: nat, r: Reg)
    requires WellFormed(p) && Found(p, prev, walks, order, i0, r)
    ensures |order| <= |p.stmts|
    ensures forall k :: 0 <= k < |order| ==> order[k] < |p.stmts| && order[k] in prev
  {
    forall k | 0 <= k < |order| ensures order[k] < |p.stmts| && order[k] in prev {
      assert order[k] in order;
    }
    NoRepeatsBound(order, |p.stmts|);
  }

  lemma LinksGrow(p: Program, prev: map<nat, Option<nat>>, walks: map<nat, seq<nat>>,
                  i0: nat, r: Reg, i: nat, j: nat)
    requires WellFormed(p) && Links(p, prev, walks, i0, r) && i in prev && j !in prev
    requires i < |p.stmts| && j < |p.stmts| && To(j) in Succs(p, i) && !Kills(p, i, r)
    ensures Links(p, prev[j := Some(i)], walks[j := walks[i] + [j]], i0, r)
  {
    var prev2, walks2 := prev[j := Some(i)], walks[j := walks[i] + [j]];
    assert walks2.Keys == prev2.Keys;
    assert LinkAt(p, prev, walks, i0, r, i);
    WalkExtends(p, walks[i], i0, j, r);
    assert LinkAt(p, prev2, walks2, i0, r, j);
    forall k | k in prev ensures LinkAt(p, prev2, walks2, i0, r, k) {
      assert LinkAt(p, prev, walks, i0, r, k);
    }
  }

  lemma FoundGrows(p: Program, prev: map<nat, Option<nat>>, walks: map<nat, seq<nat>>,
                   order: seq<nat>, i0: nat, r: Reg, i: nat, j: nat)
    requires WellFormed(p) && Found(p, prev, walks, order, i0, r) && i in prev && j !in prev
    requires i < |p.stmts| && j < |p.stmts| && To(j) in Succs(p, i) && !Kills(p, i, r)
    ensures Found(p, prev[j := Some(i)], walks[j := walks[i] + [j]], order + [j], i0, r)
  {
    LinksGrow(p, prev, walks, i0, r, i, j);
    forall a | 0 <= a < |order| ensures order[a] != j { assert order[a] in order; }
    forall k | k in prev[j := Some(i)] ensures Listed(order + [j], k) {
      if k != j { assert Listed(order, k); }
    }
  }

  /** What the search reports: a witness and why its last statement ends it, or nothing
      when no witness exists. */
  ghost predicate Answer(p: Program, live: Live, i0: nat, r: Reg, path: Option<seq<nat>>, why: Why)
    requires WellFormed(p) && |live| == |p.stmts|
  {
    match path
    case None => !HasWitness(p, live, i0, r)
    case Some(found) =>
      && WitnessPath(p, live, found, r) && found[0] == i0
      && why == ReasonAt(p, live, found[|found| - 1], r)
  }

  datatype Why = ARead | AtKind(kind: Kind) | NoLabel

  ghost function ReasonAt(p: Program, live: Live, i: nat, r: Reg): Why
    requires WellFormed(p) && i < |p.stmts| == |live|
  {
    if !SearchStops(p, live, i, r) then NoLabel
    else if p.stmts[i].kind == Op then ARead else AtKind(p.stmts[i].kind)
  }

  lemma AnswerIffLive(p: Program, live: Live, i0: nat, r: Reg, path: Option<seq<nat>>, why: Why)
    requires LeastSolution(p, live) && i0 < |p.stmts| && Answer(p, live, i0, r, path, why)
    ensures r != 0 ==> (path.Some? <==> r in live[i0])
  {
    if r != 0 { WitnessIffLive(p, live, i0, r); }
  }

  lemma FoundPathStops(p: Program, live: Live, prev: map<nat, Option<nat>>, walks: map<nat, seq<nat>>,
                       order: seq<nat>, i0: nat, r: Reg, i: nat)
    requires WellFormed(p) && |live| == |p.stmts| && Found(p, prev, walks, order, i0, r) && i in prev
    requires i < |p.stmts| && (SearchStops(p, live, i, r) || LeavesImage(p, i, r))
    ensures Answer(p, live, i0, r, Some(walks[i]), ReasonAt(p, live, i, r))
  {
    assert LinkAt(p, prev, walks, i0, r, i);
  }

  ghost predicate AllExhausted(p: Program, live: Live, found: set<nat>, done: seq<nat>, r: Reg)
    requires WellFormed(p) && |live| == |p.stmts|
  {
    forall k {:trigger ExhaustedAt(p, live, found, k, r)} :: k in done ==> ExhaustedAt(p, live, found, k, r)
  }

  ghost predicate ExhaustedAt(p: Program, live: Live, found: set<nat>, i: nat, r: Reg)
    requires WellFormed(p) && |live| == |p.stmts|
  {
    i < |p.stmts| && Exhausted(p, live, found, i, r)
  }

  lemma AllExhaustedMonotone(p: Program, live: Live, found: set<nat>, more: set<nat>, done: seq<nat>, r: Reg)
    requires WellFormed(p) && |live| == |p.stmts|
    requires AllExhausted(p, live, found, done, r) && found <= more
    ensures AllExhausted(p, live, more, done, r)
  {
    forall k | k in done ensures ExhaustedAt(p, live, more, k, r) {
      assert ExhaustedAt(p, live, found, k, r);
    }
  }

  lemma NothingLeft(p: Program, live: Live, prev: map<nat, Option<nat>>, walks: map<nat, seq<nat>>,
                    order: seq<nat>, i0: nat, r: Reg)
    requires WellFormed(p) && |live| == |p.stmts| && Found(p, prev, walks, order, i0, r)
    requires AllExhausted(p, live, prev.Keys, order, r)
    ensures Answer(p, live, i0, r, None, NoLabel)
  {
    forall i | i in prev ensures i < |p.stmts| && Exhausted(p, live, prev.Keys, i, r) {
      assert Listed(order, i);
      assert ExhaustedAt(p, live, prev.Keys, i, r);
    }
    forall path | |path| > 0 && path[0] == i0 ensures !WitnessPath(p, live, path, r) {
      ExhaustedHasNoWitness(p, live, prev.Keys, path, r);
    }
  }

  /** The smallest image on which it is not: a call to a function that just returns. */
  function LinkImage(): Program {
    Program([Stmt(1, Call, {}, Some(0), [16]), Stmt(2, Halt, {}, None, []), Stmt(3, Ret, {0}, None, [])],
            map[16 := 2], [0, 0, 0], {})
  }

  lemma LinkImageSolution()
    ensures LeastSolution(LinkImage(), [{}, {}, {0}])
  {
    var p := LinkImage();
    var live: Live := [{}, {}, {0}];
    assert WellFormed(p) by {
      forall i | 0 <= i < |p.stmts| ensures WellFormedStmt(p, p.stmts[i]) {
        assert i == 0 || i == 1 || i == 2;
      }
    }
    assert LiveOut(p, live, 0) == {} by { assert Succs(p, 0) == [To(1)]; }
    assert EntryLive(p, live, 16) == {0};
    assert Transfer(p, live, 0) == {};
    assert Transfer(p, live, 1) == {};
    assert Transfer(p, live, 2) == {0};
    forall other | Closed(p, other) ensures Below(live, other) {
      assert Transfer(p, other, 2) <= other[2];
      assert Transfer(p, other, 2) == p.retLive + p.stmts[2].uses;
    }
  }

  lemma LinkWitnessCounterexample()
    ensures LeastSolution(LinkImage(), [{}, {}, {0}])
    ensures HasWitness(LinkImage(), [{}, {}, {0}], 0, 0)
  {
    LinkImageSolution();
    assert WitnessPath(LinkImage(), [{}, {}, {0}], [0], 0) && [0][0] == 0;
  }
}
