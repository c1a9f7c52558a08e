/** The counts block written in one pass over the table, and the double loop it replaced. */
module MilestoneCounts {
  import opened Common
  import opened Milestone
  import opened MilestoneProof

  /** The lines the double loop writes for one ordinal: one per published slot that has it. */
  function LinesAt(slots: seq<Slot>, ord: nat): seq<Line> {
    if slots == [] then []
    else
      var last := slots[|slots| - 1];
      LinesAt(slots[..|slots| - 1], ord)
      + (if last.state == 2 && last.ord == ord then [Count(last.key, Bucket(last.hits))] else [])
  }

  /** The ordinal-outer double loop. */
  function DoubleLoop(slots: seq<Slot>, upTo: nat): seq<Line> {
    if upTo == 0 then [] else DoubleLoop(slots, upTo - 1) + LinesAt(slots, upTo)
  }

  /** What holds of the table while the lock is held between inserts. */
  ghost predicate Settled(slots: seq<Slot>) {
    && (forall i :: 0 <= i < |slots| && slots[i].ord > 0 ==> slots[i].state == 2)
    && forall i, j :: 0 <= i < j < |slots| && slots[i].ord == slots[j].ord ==> slots[i].ord == 0
  }

  lemma {:induction false} NoLinesAt(slots: seq<Slot>, ord: nat)
    requires forall i :: 0 <= i < |slots| ==> slots[i].ord != ord
    ensures LinesAt(slots, ord) == []
    decreases |slots|
  {
    if slots != [] { NoLinesAt(slots[..|slots| - 1], ord); }
  }

  lemma {:induction false} OneLineAt(slots: seq<Slot>, at: nat)
    requires Settled(slots) && at < |slots| && slots[at].ord > 0
    ensures LinesAt(slots, slots[at].ord) == [Count(slots[at].key, Bucket(slots[at].hits))]
    decreases |slots|
  {
    var front := slots[..|slots| - 1];
    if at == |slots| - 1 {
      NoLinesAt(front, slots[at].ord);
    } else {
      assert slots[|slots| - 1].ord != slots[at].ord;
      OneLineAt(front, at);
    }
  }

  /** The slot the pass remembers for an ordinal stands for all the lines at it. */
  lemma ByOrdLine(slots: seq<Slot>, ord: nat)
    requires Settled(slots) && ord > 0 && |slots| > 0
    ensures ByOrd(slots, ord) < |slots|
    ensures var slot := slots[ByOrd(slots, ord)];
            LinesAt(slots, ord) == if slot.ord == ord then [Count(slot.key, Bucket(slot.hits))] else []
  {
    var at := ByOrd(slots, ord);
    if slots[at].ord == ord {
      OneLineAt(slots, at);
    } else {
      forall i | 0 <= i < |slots| ensures slots[i].ord != ord {}
      NoLinesAt(slots, ord);
    }
  }

  /** The index the pass builds: for each ordinal the last published slot that has it, or 0. */
  ghost predicate Indexed(byOrd: seq<nat>, slots: seq<Slot>) {
    |byOrd| == CAP + 1 && forall ord: nat :: ord <= CAP ==> byOrd[ord] == ByOrd(slots, ord)
  }

  lemma IndexGrows(byOrd: seq<nat>, slots: seq<Slot>, i: nat)
    requires i < |slots| && Indexed(byOrd, slots[..i])
    ensures var slot := slots[i];
      Indexed(if slot.state == 2 && slot.ord <= CAP then byOrd[slot.ord := i] else byOrd, slots[..i + 1])
  {
    assert slots[..i + 1][..i] == slots[..i];
  }

  method IndexByOrdinal(slots: seq<Slot>) returns (byOrd: array<nat>)
    requires |slots| == CAP
    ensures Indexed(byOrd[..], slots)
  {
    byOrd := new nat[CAP + 1](_ => 0);
    for i := 0 to CAP
      invariant byOrd.Length == CAP + 1 && Indexed(byOrd[..], slots[..i])
    {
      IndexGrows(byOrd[..], slots, i);
      if slots[i].state == 2 && slots[i].ord <= CAP {
        byOrd[slots[i].ord] := i;
      }
    }
    assert slots[..CAP] == slots;
  }

  /** Indexes the slots by ordinal in one pass, then writes the lines in ordinal order. */
  method WriteCounts(slots: seq<Slot>, nextOrd: nat) returns (lines: seq<Line>)
    requires |slots| == CAP && Settled(slots)
    ensures lines == [CountsMark] + DoubleLoop(slots, if nextOrd <= CAP then nextOrd else CAP)
  {
    hide Bucket, LinesAt, ByOrd, Settled;
    var byOrd := IndexByOrdinal(slots);
    ghost var index := byOrd[..];
    lines := [CountsMark];
    var ord := 1;
    while ord <= nextOrd && ord <= CAP
      invariant 1 <= ord <= CAP + 1 && ord - 1 <= nextOrd
      invariant byOrd[..] == index
      invariant lines == [CountsMark] + DoubleLoop(slots, ord - 1)
    {
      ByOrdLine(slots, ord);
      assert byOrd[ord] == index[ord] == ByOrd(slots, ord);
      var slot := slots[byOrd[ord]];
      if slot.ord == ord {
        lines := lines + [Count(slot.key, Bucket(slot.hits))];
      }
      ord := ord + 1;
    }
  }

  /** Whoever writes a counts block holds the lock, so no slot is half written then. */
  lemma CountsAreWrittenSettled(s: State, t: nat)
    requires Inv(s) && ThreadOf(s, t).Counting?
    ensures Settled(s.slots)
  {
    hide ThreadsOk, HitsOk, NoSlotOk, Unique, PathFilled, Distance;
    assert Holds(ThreadOf(s, t)) <==> s.lock == Some(t);
    forall i | 0 <= i < |s.slots| && s.slots[i].ord > 0 ensures s.slots[i].state == 2 {
      assert SlotOk(s, i);
    }
    forall i, j | 0 <= i < j < |s.slots| && s.slots[i].ord == s.slots[j].ord ensures s.slots[i].ord == 0 {
      assert SlotOk(s, i) && SlotOk(s, j);
    }
  }
}
