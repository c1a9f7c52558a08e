/** What the log of any run holds, and so what a reader finds in it after a kill. */
module MilestoneJournal {
  import opened Common
  import opened Milestone
  import opened MilestoneProof
  import opened MilestoneRuns
  import opened MilestoneLog
  import opened Text

  /** The stream lines of a log. */
  function Streams(lines: seq<Line>): seq<(nat, Key)> {
    if lines == [] then []
    else
      var last := lines[|lines| - 1];
      Streams(lines[..|lines| - 1]) + (if last.Stream? then [(last.ord, last.key)] else [])
  }

  lemma StreamsSnoc(lines: seq<Line>, line: Line)
    ensures Streams(lines + [line]) == Streams(lines) + (if line.Stream? then [(line.ord, line.key)] else [])
  {
    assert (lines + [line])[..|lines|] == lines;
  }

  /** A slot has been claimed whose stream line is still to come. */
  predicate Pending(s: State) {
    s.lock.Some? && (ThreadOf(s, s.lock.value).Written? || ThreadOf(s, s.lock.value).Published?)
  }

  /** The stream lines are the first slots claimed, numbered from 1; all of them while the
      log is open, but for one that is pending. */
  ghost predicate LogOk(s: State)
    requires |s.slots| == CAP && OrderOk(s)
  {
    && |Streams(s.log)| <= s.nextOrd
    && (forall i :: 0 <= i < |Streams(s.log)| ==> Streams(s.log)[i] == (i + 1, s.slots[s.order[i]].key))
    && (s.isOpen ==> |Streams(s.log)| == s.nextOrd - (if Pending(s) then 1 else 0))
  }

  ghost predicate SameKeys(s: State, s2: State) {
    && |s.slots| == |s2.slots| == CAP && s2.order == s.order && s2.nextOrd == s.nextOrd
    && forall at :: 0 <= at < CAP ==> s2.slots[at].key == s.slots[at].key && s2.slots[at].ord == s.slots[at].ord
  }

  /** Steps that write no stream line: the log grows by other lines, if at all. */
  ghost predicate Quietly(s: State, s2: State) {
    && SameKeys(s, s2) && (s2.isOpen ==> s.isOpen)
    && (s2.log == s.log || exists line: Line :: !line.Stream? && s2.log == s.log + [line])
  }

  lemma QuietlyKeepsLog(s: State, s2: State)
    requires Inv(s) && LogOk(s) && Quietly(s, s2) && (s2.isOpen ==> Pending(s2) == Pending(s))
    ensures OrderOk(s2) && LogOk(s2)
  {
    if s2.log != s.log {
      var line: Line :| !line.Stream? && s2.log == s.log + [line];
      StreamsSnoc(s.log, line);
    }
  }

  lemma FreeStepQuiet(s: State, t: nat, c: Choice)
    requires |s.slots| == CAP && !Holds(ThreadOf(s, t))
    ensures SameKeys(s, FreeStep(s, t, c))
    ensures FreeStep(s, t, c).log == s.log && FreeStep(s, t, c).isOpen == s.isOpen
  {
  }

  lemma FreeStepPending(s: State, t: nat, c: Choice)
    requires Inv(s) && !Holds(ThreadOf(s, t))
    ensures Pending(FreeStep(s, t, c)) == Pending(s)
  {
    if s.lock.Some? { assert Holds(ThreadOf(s, s.lock.value)); }
    FreeStepLock(s, t, c);
  }

  /** A thread without the lock leaves the holder alone, or becomes it with nothing pending. */
  lemma FreeStepLock(s: State, t: nat, c: Choice)
    requires |s.slots| == CAP && !Holds(ThreadOf(s, t))
    ensures var s2 := FreeStep(s, t, c);
      && (forall u: nat :: u != t ==> ThreadOf(s2, u) == ThreadOf(s, u))
      && (s2.lock == s.lock || (s.lock == None && s2.lock == Some(t)))
      && !ThreadOf(s2, t).Written? && !ThreadOf(s2, t).Published?
  {
    hide Hash, Probe, Bucket;
  }

  lemma FreeStepKeepsLog(s: State, t: nat, c: Choice)
    requires Inv(s) && LogOk(s) && !Holds(ThreadOf(s, t))
    ensures |FreeStep(s, t, c).slots| == CAP
    ensures OrderOk(FreeStep(s, t, c)) && LogOk(FreeStep(s, t, c))
  {
    FreeStepQuiet(s, t, c);
    FreeStepPending(s, t, c);
    QuietlyKeepsLog(s, FreeStep(s, t, c));
  }

  lemma ClaimKeepsLog(s: State, t: nat, key: Key, i: nat)
    requires Inv(s) && LogOk(s) && ThreadOf(s, t) == LockedScan(key, i) && i < CAP
    requires s.slots[Probe(Hash(key), i)].state == 0
    ensures var s2 := Claim(s, t, key, Probe(Hash(key), i));
            OrderOk(s2) && LogOk(s2)
  {
    assert Holds(ThreadOf(s, t)) <==> s.lock == Some(t);
    var at := Probe(Hash(key), i);
    var s2 := Claim(s, t, key, at);
    EmptyMeansAbsent(s, t, key, i);
    forall o | 0 <= o < |s.order| ensures s.order[o] != at && s2.order[o] == s.order[o] {
      assert s.slots[s.order[o]].ord == o + 1;
    }
  }

  lemma LockedScanKeepsLog(s: State, t: nat, key: Key, i: nat)
    requires Inv(s) && LogOk(s) && ThreadOf(s, t) == LockedScan(key, i)
    ensures |LockedScanStep(s, t, key, i).slots| == CAP
    ensures OrderOk(LockedScanStep(s, t, key, i)) && LogOk(LockedScanStep(s, t, key, i))
  {
    if i < CAP && s.slots[Probe(Hash(key), i)].state == 0 {
      ClaimKeepsLog(s, t, key, i);
    } else {
      assert Holds(ThreadOf(s, t)) <==> s.lock == Some(t);
      QuietlyKeepsLog(s, LockedScanStep(s, t, key, i));
    }
  }

  lemma StreamKeepsLog(s: State, t: nat, key: Key, at: nat)
    requires Inv(s) && LogOk(s) && ThreadOf(s, t) == Published(key, at)
    ensures OrderOk(StreamStep(s, t, key, at)) && LogOk(StreamStep(s, t, key, at))
  {
    hide Streams;
    assert Holds(ThreadOf(s, t)) <==> s.lock == Some(t);
    assert ThreadOk(s, ThreadOf(s, t)) && SlotOk(s, at);
    var s2 := StreamStep(s, t, key, at);
    StreamsSnoc(s.log, Stream(s.slots[at].ord, s.slots[at].key));
    assert Pending(s) && !Pending(s2);
    assert s2.slots == s.slots && s2.order == s.order && s2.nextOrd == s.nextOrd;
    StreamLineIsNext(s, s2, at);
  }

  lemma StreamLineIsNext(s: State, s2: State, at: nat)
    requires |s.slots| == CAP && OrderOk(s) && LogOk(s) && Pending(s) && !Pending(s2)
    requires s2.slots == s.slots && s2.order == s.order && s2.nextOrd == s.nextOrd && s2.isOpen == s.isOpen
    requires at < CAP && s.nextOrd > 0 && s.slots[at].ord == s.nextOrd && s.order[s.nextOrd - 1] == at
    requires Streams(s2.log) == Streams(s.log) + (if s.isOpen then [(s.slots[at].ord, s.slots[at].key)] else [])
    ensures OrderOk(s2) && LogOk(s2)
  {
  }

  /** The other steps of the lock holder write no stream line. */
  lemma HolderStepQuiet(s: State, t: nat, c: Choice)
    requires |s.slots| == CAP && Holds(ThreadOf(s, t)) && !ThreadOf(s, t).LockedScan?
    requires !ThreadOf(s, t).Published?
    ensures SameKeys(s, HolderStep(s, t, c)) && (HolderStep(s, t, c).isOpen ==> s.isOpen)
  {
  }

  lemma HolderStepWrites(s: State, t: nat, c: Choice)
    requires |s.slots| == CAP && Holds(ThreadOf(s, t)) && !ThreadOf(s, t).LockedScan?
    requires !ThreadOf(s, t).Published?
    ensures HolderStep(s, t, c).log == s.log
            || exists line: Line :: !line.Stream? && HolderStep(s, t, c).log == s.log + [line]
  {
    match ThreadOf(s, t)
    case Streamed(key) => MaybeCountsWrites(s, t, c == Go(true), ThenReturn(key, true));
    case AtCheckpoint(key) => MaybeCountsWrites(s, t, c == Go(true), ThenScan(key));
    case WritingKv(key, value) => KvWrites(s, t, key, value);
    case AtDump => DumpWrites(s, t);
    case Counting(ord, next) => CountWrites(s, t, ord, next);
    case _ =>
  }

  ghost predicate WritesOther(s: State, s2: State) {
    s2.log == s.log || exists line: Line :: !line.Stream? && s2.log == s.log + [line]
  }

  lemma MaybeCountsWrites(s: State, t: nat, due: bool, next: Then)
    ensures WritesOther(s, MaybeCounts(s, t, due, next))
  {
    assert !CountsMark.Stream?;
  }

  lemma KvWrites(s: State, t: nat, key: Key, value: int)
    ensures WritesOther(s, KvStep(s, t, key, value))
  {
    assert !Kv(key, value).Stream?;
  }

  lemma DumpWrites(s: State, t: nat)
    ensures WritesOther(s, DumpStep(s, t))
  {
    assert !CountsMark.Stream?;
  }

  lemma CountWrites(s: State, t: nat, ord: nat, next: Then)
    requires |s.slots| == CAP
    ensures WritesOther(s, CountStep(s, t, ord, next))
  {
    var slot := s.slots[ByOrd(s.slots, ord)];
    assert !Count(slot.key, Bucket(slot.hits)).Stream?;
    assert !End.Stream?;
  }

  lemma HolderStepPending(s: State, t: nat, c: Choice)
    requires Inv(s) && Holds(ThreadOf(s, t)) && !ThreadOf(s, t).LockedScan? && !ThreadOf(s, t).Published?
    ensures Pending(HolderStep(s, t, c)) == Pending(s)
  {
    assert Holds(ThreadOf(s, t)) <==> s.lock == Some(t);
    assert ThreadOk(s, ThreadOf(s, t));
  }

  lemma OtherHolderStepKeepsLog(s: State, t: nat, c: Choice)
    requires Inv(s) && LogOk(s) && Holds(ThreadOf(s, t)) && !ThreadOf(s, t).LockedScan? && !ThreadOf(s, t).Published?
    ensures |HolderStep(s, t, c).slots| == CAP
    ensures OrderOk(HolderStep(s, t, c)) && LogOk(HolderStep(s, t, c))
  {
    HolderStepQuiet(s, t, c);
    HolderStepWrites(s, t, c);
    HolderStepPending(s, t, c);
    QuietlyKeepsLog(s, HolderStep(s, t, c));
  }

  lemma HolderStepKeepsLog(s: State, t: nat, c: Choice)
    requires Inv(s) && LogOk(s) && Holds(ThreadOf(s, t))
    ensures |HolderStep(s, t, c).slots| == CAP
    ensures OrderOk(HolderStep(s, t, c)) && LogOk(HolderStep(s, t, c))
  {
    match ThreadOf(s, t)
    case LockedScan(key, i) => LockedScanKeepsLog(s, t, key, i);
    case Published(key, at) => StreamKeepsLog(s, t, key, at);
    case _ => OtherHolderStepKeepsLog(s, t, c);
  }

  /** A log once closed stays closed. */
  lemma StepOpens(s: State, t: nat, c: Choice)
    requires |s.slots| == CAP
    ensures Step(s, t, c).isOpen ==> s.isOpen
  {
    hide LockedScanStep, HolderStep, FreeStep;
    if !Holds(ThreadOf(s, t)) {
      FreeStepQuiet(s, t, c);
    } else if ThreadOf(s, t).LockedScan? {
      LockedScanOpens(s, t, c);
    } else if ThreadOf(s, t).Published? {
      PublishedOpens(s, t, c);
    } else {
      HolderStepQuiet(s, t, c);
    }
  }

  lemma LockedScanOpens(s: State, t: nat, c: Choice)
    requires |s.slots| == CAP && ThreadOf(s, t).LockedScan?
    ensures HolderStep(s, t, c).isOpen == s.isOpen
  {
    hide Hash, Probe;
  }

  lemma PublishedOpens(s: State, t: nat, c: Choice)
    requires |s.slots| == CAP && ThreadOf(s, t).Published?
    ensures HolderStep(s, t, c).isOpen == s.isOpen
  {
  }

  lemma StepKeepsLog(s: State, t: nat, c: Choice)
    requires Inv(s) && LogOk(s)
    ensures |Step(s, t, c).slots| == CAP
    ensures OrderOk(Step(s, t, c)) && LogOk(Step(s, t, c))
  {
    if Holds(ThreadOf(s, t)) { HolderStepKeepsLog(s, t, c); } else { FreeStepKeepsLog(s, t, c); }
  }

  lemma {:induction false} RunLog(schedule: Schedule)
    requires KeysFit(schedule)
    ensures Inv(Run(Init(), schedule)) && LogOk(Run(Init(), schedule))
    decreases |schedule|
  {
    RunInv(schedule);
    if schedule == [] {
      assert Streams([Header]) == Streams([Header][..0]) + [];
      assert [Header][..0] == [];
    } else {
      var before := schedule[..|schedule| - 1];
      KeysFitBefore(schedule, |schedule| - 1);
      RunLog(before);
      StepKeepsLog(Run(Init(), before), schedule[|schedule| - 1].0, schedule[|schedule| - 1].1);
    }
  }
}
