/** What the regression gate may conclude from the counts of a log. */
module MilestoneGate {
  import opened Common
  import opened Milestone
  import opened MilestoneProof
  import opened MilestoneRuns
  import opened MilestoneLog
  import opened MilestoneJournal
  import opened MilestoneReadBack
  import opened Text

  // ----- counts only grow ----------------------------------------------------------------

  lemma HolderKeepsCounted(s: State, t: nat, c: Choice, key: Key)
    requires |s.slots| == CAP && Holds(ThreadOf(s, t)) && Counted(ThreadOf(s, t), key)
    ensures Counted(ThreadOf(HolderStep(s, t, c), t), key)
  {
    hide LockedScanStep, HitStep, DumpStep, KvStep, CountStep, MaybeCounts, ByOrd, Bucket;
    match ThreadOf(s, t)
    case Counting(ord, next) => CountKeepsCounted(s, t, ord, next, key);
    case Streamed(_) => MaybeCountsKeepsCounted(s, t, c == Go(true), key);
    case _ =>
  }

  lemma CountKeepsCounted(s: State, t: nat, ord: nat, next: Then, key: Key)
    requires |s.slots| == CAP && Counted(Counting(ord, next), key)
    ensures Counted(ThreadOf(CountStep(s, t, ord, next), t), key)
  {
    hide ByOrd, Bucket;
  }

  lemma MaybeCountsKeepsCounted(s: State, t: nat, due: bool, key: Key)
    ensures Counted(ThreadOf(MaybeCounts(s, t, due, ThenReturn(key, true)), t), key)
  {
  }

  /** A step that does not begin or return a call loses no counted call. */
  lemma MovedTally(s: State, t: nat, c: Choice, key: Key)
    requires |s.slots| == CAP && !ThreadOf(s, t).Idle? && !ThreadOf(s, t).Returning?
    ensures Tally(Step(s, t, c), key) >= Tally(s, key)
  {
    hide HolderStep, FreeStep, InFlight;
    var s2 := Step(s, t, c);
    StepServes(s, t, c);
    if Counted(ThreadOf(s, t), key) { HolderKeepsCounted(s, t, c, key); }
    if s2.threads == s.threads {
      SameThreadsSameCount(s, s2, key);
    } else {
      InFlightMove(s, s2, t, ThreadOf(s2, t), key);
    }
  }

  lemma SameThreadsSameCount(s: State, s2: State, key: Key)
    requires s2.threads == s.threads
    ensures InFlight(s2, key) == InFlight(s, key)
  {
  }

  lemma EdgeTally(s: State, t: nat, c: Choice, key: Key)
    requires |s.slots| == CAP && (ThreadOf(s, t).Idle? || ThreadOf(s, t).Returning?)
    ensures Tally(Step(s, t, c), key) >= Tally(s, key)
  {
    var s2 := Step(s, t, c);
    if s2.threads == s.threads {
      SameThreadsSameCount(s, s2, key);
    } else {
      InFlightMove(s, s2, t, ThreadOf(s2, t), key);
    }
  }

  lemma StepTally(s: State, t: nat, c: Choice, key: Key)
    requires |s.slots| == CAP
    ensures Tally(Step(s, t, c), key) >= Tally(s, key)
  {
    if ThreadOf(s, t).Idle? || ThreadOf(s, t).Returning? { EdgeTally(s, t, c, key); } else { MovedTally(s, t, c, key); }
  }

  /** Between two points of a run tallies and the log only grow. */
  lemma {:induction false} RunGrows(schedule: Schedule, m: nat, n: nat, key: Key)
    requires m <= n <= |schedule|
    ensures Tally(Run(Init(), schedule[..m]), key) <= Tally(Run(Init(), schedule[..n]), key)
    ensures Run(Init(), schedule[..m]).log <= Run(Init(), schedule[..n]).log
    decreases n - m
  {
    hide Step, Tally;
    if m < n {
      RunGrows(schedule, m, n - 1, key);
      assert schedule[..n][..n - 1] == schedule[..n - 1];
      var (t, c) := schedule[n - 1];
      StepTally(Run(Init(), schedule[..n - 1]), t, c, key);
      StepLog(Run(Init(), schedule[..n - 1]), t, c);
    }
  }

  lemma SubsetSize(a: set<nat>, b: set<nat>)
    requires a <= b
    ensures |a| <= |b|
  {
    if a != {} {
      var x :| x in a;
      SubsetSize(a - {x}, b - {x});
    }
  }

  lemma TallyAtMostBegun(schedule: Schedule, key: Key)
    ensures Tally(Run(Init(), schedule), key) <= Begun(schedule, key)
  {
    var s := Run(Init(), schedule);
    BegunReturnedOrServed(schedule, key);
    forall t | t in CountedOn(s.threads, key) ensures t in ServingOn(s.threads, key) {
      CountedServes(s.threads[t], key);
    }
    SubsetSize(CountedOn(s.threads, key), ServingOn(s.threads, key));
  }

  lemma CountedServes(th: Thread, key: Key)
    requires Counted(th, key)
    ensures Serving(th) == Some(key)
  {
  }

  // ----- what a count line says ------------------------------------------------------------

  /** A counts block goes through the ordinals from 1. */
  ghost predicate FromOne(s: State) {
    forall t: nat {:trigger ThreadOf(s, t)} :: ThreadOf(s, t).Counting? ==> ThreadOf(s, t).ord >= 1
  }

  lemma StepFromOne(s: State, t: nat, c: Choice)
    requires |s.slots| == CAP && FromOne(s)
    ensures FromOne(Step(s, t, c))
  {
    var s2 := Step(s, t, c);
    StepCountsOn(s, t, c);
    forall u: nat | ThreadOf(s2, u).Counting? ensures ThreadOf(s2, u).ord >= 1 {
      if u != t { assert ThreadOf(s2, u) == ThreadOf(s, u); }
    }
  }

  lemma StepCountsOn(s: State, t: nat, c: Choice)
    requires |s.slots| == CAP && FromOne(s)
    ensures var s2 := Step(s, t, c);
      && (forall u: nat :: u != t ==> ThreadOf(s2, u) == ThreadOf(s, u))
      && (ThreadOf(s2, t).Counting? ==> ThreadOf(s2, t).ord >= 1)
  {
    hide HolderStep, FreeStep;
    assert ThreadOf(s, t).Counting? ==> ThreadOf(s, t).ord >= 1;
    if Holds(ThreadOf(s, t)) {
      HolderStepServes(s, t, c);
      HolderCountsOn(s, t, c);
    } else {
      FreeStepLock(s, t, c);
      FreeStepDoesNotCount(s, t, c);
    }
  }

  lemma FreeStepDoesNotCount(s: State, t: nat, c: Choice)
    requires |s.slots| == CAP && !Holds(ThreadOf(s, t))
    ensures !ThreadOf(FreeStep(s, t, c), t).Counting?
  {
    hide Hash, Probe;
  }

  lemma HolderCountsOn(s: State, t: nat, c: Choice)
    requires |s.slots| == CAP && Holds(ThreadOf(s, t)) && (ThreadOf(s, t).Counting? ==> ThreadOf(s, t).ord >= 1)
    ensures ThreadOf(HolderStep(s, t, c), t).Counting? ==> ThreadOf(HolderStep(s, t, c), t).ord >= 1
  {
    hide LockedScanStep, HitStep, Publish, StreamStep, MaybeCounts, DumpStep, CountStep, Unlock, KvStep;
    match ThreadOf(s, t)
    case Streamed(key) => MaybeCountsFromOne(s, t, c == Go(true), ThenReturn(key, true));
    case AtCheckpoint(key) => MaybeCountsFromOne(s, t, c == Go(true), ThenScan(key));
    case AtDump => DumpsFromOne(s, t);
    case Counting(ord, next) => CountsOn(s, t, ord, next);
    case LockedScan(key, i) => assert !ThreadOf(LockedScanStep(s, t, key, i), t).Counting? by { LockedScanDoesNotCount(s, t, key, i); }
    case _ => OthersDoNotStart(s, t, c);
  }

  lemma MaybeCountsFromOne(s: State, t: nat, due: bool, next: Then)
    ensures var th := ThreadOf(MaybeCounts(s, t, due, next), t); th.Counting? ==> th.ord >= 1
  {
  }

  lemma DumpsFromOne(s: State, t: nat)
    ensures var th := ThreadOf(DumpStep(s, t), t); th.Counting? ==> th.ord >= 1
  {
  }

  lemma CountsOn(s: State, t: nat, ord: nat, next: Then)
    requires |s.slots| == CAP && ord >= 1
    ensures var th := ThreadOf(CountStep(s, t, ord, next), t); th.Counting? ==> th.ord >= 1
  {
  }

  lemma LockedScanDoesNotCount(s: State, t: nat, key: Key, i: nat)
    requires |s.slots| == CAP
    ensures !ThreadOf(LockedScanStep(s, t, key, i), t).Counting?
  {
    hide Hash, Probe;
  }

  lemma OthersDoNotStart(s: State, t: nat, c: Choice)
    requires |s.slots| == CAP && Holds(ThreadOf(s, t)) && !ThreadOf(s, t).Streamed? && !ThreadOf(s, t).AtCheckpoint?
    requires !ThreadOf(s, t).AtDump? && !ThreadOf(s, t).Counting? && !ThreadOf(s, t).LockedScan?
    ensures !ThreadOf(HolderStep(s, t, c), t).Counting?
  {
    hide LockedScanStep, MaybeCounts, DumpStep, CountStep;
  }

  lemma {:induction false} RunFromOne(schedule: Schedule)
    ensures FromOne(Run(Init(), schedule))
    decreases |schedule|
  {
    hide Step, FromOne;
    if schedule == [] {
      NobodyCounts();
    } else {
      RunFromOne(schedule[..|schedule| - 1]);
      StepFromOne(Run(Init(), schedule[..|schedule| - 1]), schedule[|schedule| - 1].0, schedule[|schedule| - 1].1);
    }
  }

  lemma NobodyCounts()
    ensures FromOne(Init())
  {
  }

  /** The line a step writes for a key has the bucket of the calls counted on it so far. */
  lemma NewCountIsTally(s: State, t: nat, c: Choice)
    requires Inv(s) && FromOne(s) && |Step(s, t, c).log| == |s.log| + 1 && Step(s, t, c).log[|s.log|].Count?
    ensures var line := Step(s, t, c).log[|s.log|]; line.bucket == Bucket(Tally(s, line.key) % WORD)
  {
    var th := ThreadOf(s, t);
    if !Holds(th) {
      FreeStepQuiet(s, t, c);
    } else if !th.Counting? {
      OthersDoNotCount(s, t, c);
    } else {
      OnlyGivenOrdinals(s, t, th.ord, th.then_);
      CountStepWritesItsSlot(s, t, th.ord, th.then_);
      var at := s.order[th.ord - 1];
      assert Claimed(s.slots[at]);
      assert s.slots[at].hits == Tally(s, s.slots[at].key) % WORD;
    }
  }

  lemma OnlyGivenOrdinals(s: State, t: nat, ord: nat, next: Then)
    requires |s.slots| == CAP && |CountStep(s, t, ord, next).log| == |s.log| + 1
    requires CountStep(s, t, ord, next).log[|s.log|].Count?
    ensures ord <= s.nextOrd
  {
  }

  /** The step of the run that wrote a count line. */
  lemma {:induction false} CountWrittenAt(schedule: Schedule, i: nat) returns (m: nat)
    requires KeysFit(schedule)
    requires i < |Run(Init(), schedule).log| && Run(Init(), schedule).log[i].Count?
    ensures m < |schedule| && |Run(Init(), schedule[..m]).log| == i
    ensures var line := Run(Init(), schedule).log[i];
      line.bucket == Bucket(Tally(Run(Init(), schedule[..m]), line.key) % WORD)
    decreases |schedule|
  {
    hide Step, Tally, Bucket, Inv, FromOne;
    if schedule != [] {
      m := |schedule| - 1;
      var (t, c) := schedule[m];
      var s := Run(Init(), schedule[..m]);
      StepLog(s, t, c);
      KeysFitBefore(schedule, m);
      if i < |s.log| {
        m := CountWrittenAt(schedule[..m], i);
        assert schedule[..|schedule| - 1][..m] == schedule[..m];
      } else {
        RunInv(schedule[..m]);
        RunFromOne(schedule[..m]);
        NewCountIsTally(s, t, c);
      }
    }
  }

  lemma RankGrows(a: nat, b: nat)
    requires a <= b
    ensures BucketIndex(Bucket(a)) <= BucketIndex(Bucket(b))
  {
    hide Bucket, BucketIndex;
    BucketHasRank(a);
    BucketHasRank(b);
  }

  /** In a run with fewer than 2^32 calls on a key its count lines never go down in the
      gate's order of buckets. */
  lemma CountsNeverDrop(schedule: Schedule, i: nat, j: nat, key: Key)
    requires KeysFit(schedule) && Begun(schedule, key) < WORD && i < j < |Run(Init(), schedule).log|
    requires var log := Run(Init(), schedule).log; log[i].Count? && log[j].Count? && log[i].key == log[j].key == key
    ensures var log := Run(Init(), schedule).log; BucketIndex(log[i].bucket) <= BucketIndex(log[j].bucket)
  {
    hide Run, Tally, Bucket, BucketIndex, Begun, KeysFit;
    var m := CountWrittenAt(schedule, i);
    var n := CountWrittenAt(schedule, j);
    if n <= m { RunGrows(schedule, n, m, key); }
    RunGrows(schedule, m, n, key);
    RunGrows(schedule, n, |schedule|, key);
    assert schedule[..|schedule|] == schedule;
    TallyAtMostBegun(schedule, key);
    RankGrows(Tally(Run(Init(), schedule[..m]), key), Tally(Run(Init(), schedule[..n]), key));
  }

  // ----- the block that closes the log ---------------------------------------------------

  /** A count line for the key stands after the first n lines. */
  ghost predicate CountedAfter(lines: seq<Line>, n: nat, key: Key) {
    exists k :: n <= k < |lines| && lines[k].Count? && lines[k].key == key
  }

  /** Thread t is writing the block that closes the log, or the log is closed; a key whose
      ordinal is done has its line after the first n. */
  ghost predicate Closing(s: State, t: nat, n: nat, at: nat) {
    && at < |s.slots| && s.slots[at].state == 2
    && var key, th := s.slots[at].key, ThreadOf(s, t);
       if s.isOpen then
         && s.lock == Some(t) && th.Counting? && th.then_ == ThenEnd
         && (th.ord > s.slots[at].ord ==> CountedAfter(s.log, n, key))
       else CountedAfter(s.log, n, key)
  }

  lemma StillCounted(a: seq<Line>, b: seq<Line>, n: nat, key: Key)
    requires CountedAfter(a, n, key) && a <= b
    ensures CountedAfter(b, n, key)
  {
    var k :| n <= k < |a| && a[k].Count? && a[k].key == key;
    assert b[k] == a[k];
  }

  lemma ClosingStep(s: State, t: nat, n: nat, at: nat, u: nat, c: Choice)
    requires Inv(s) && FromOne(s) && Closing(s, t, n, at) && n <= |s.log|
    ensures Closing(Step(s, u, c), t, n, at)
  {
    hide Step, CountedAfter, FromOne, HolderStep, FreeStep, CountStep;
    var s2, key := Step(s, u, c), s.slots[at].key;
    StepKeepsPublished(s, u, c);
    StepLog(s, u, c);
    if CountedAfter(s.log, n, key) { StillCounted(s.log, s2.log, n, key); }
    StepOpens(s, u, c);
    if s.isOpen {
      if u == t {
        ClosingTurn(s, t, n, at, c);
      } else {
        OthersWait(s, t, u, c);
      }
    }
  }

  /** While t holds the lock the others write nothing and leave t alone. */
  lemma OthersWait(s: State, t: nat, u: nat, c: Choice)
    requires Inv(s) && s.lock == Some(t) && u != t
    ensures var s2 := Step(s, u, c);
      ThreadOf(s2, t) == ThreadOf(s, t) && s2.lock == s.lock && s2.log == s.log && SameKeys(s, s2) && s2.isOpen == s.isOpen
  {
    hide FreeStep;
    assert Holds(ThreadOf(s, u)) <==> s.lock == Some(u);
    FreeStepQuiet(s, u, c);
    FreeStepLock(s, u, c);
  }

  /** What one turn of the counts block does, whatever line it writes. */
  lemma CountTurn(s: State, t: nat, ord: nat)
    requires |s.slots| == CAP
    ensures var s2 := CountStep(s, t, ord, ThenEnd);
      && s2.slots == s.slots && s2.lock == s.lock
      && if ord <= s.nextOrd && ord <= CAP then s2.isOpen == s.isOpen && ThreadOf(s2, t) == Counting(ord + 1, ThenEnd)
         else !s2.isOpen && s2.log == s.log + [End]
  {
    hide ByOrd, Bucket;
  }

  lemma PublishedHasOrdinal(s: State, at: nat)
    requires Inv(s) && at < CAP && s.slots[at].state == 2
    ensures 1 <= s.slots[at].ord <= s.nextOrd <= CAP == |s.slots|
    ensures s.nextOrd == |s.order| && s.order[s.slots[at].ord - 1] == at
  {
    assert SlotOk(s, at);
    OrderBound(s);
  }

  lemma ClosingTurn(s: State, t: nat, n: nat, at: nat, c: Choice)
    requires Inv(s) && FromOne(s) && Closing(s, t, n, at) && s.isOpen && n <= |s.log| && |s.slots| == CAP
    ensures Closing(Step(s, t, c), t, n, at)
  {
    hide Inv, FromOne, CountedAfter, Step, CountStep;
    var ord, key := ThreadOf(s, t).ord, s.slots[at].key;
    var s2 := CountStep(s, t, ord, ThenEnd);
    CountingSteps(s, t, c);
    StartsAtOne(s, t);
    CountTurn(s, t, ord);
    PublishedHasOrdinal(s, at);
    if ord <= s.nextOrd {
      CountStepWritesItsSlot(s, t, ord, ThenEnd);
      if ord == s.slots[at].ord { JustCounted(s.log, s2.log, n, key); }
      if ord > s.slots[at].ord { StillCounted(s.log, s2.log, n, key); }
    } else {
      StillCounted(s.log, s2.log, n, key);
    }
  }

  lemma CountingSteps(s: State, t: nat, c: Choice)
    requires |s.slots| == CAP && ThreadOf(s, t).Counting?
    ensures Step(s, t, c) == CountStep(s, t, ThreadOf(s, t).ord, ThreadOf(s, t).then_)
  {
    hide CountStep;
  }

  lemma StartsAtOne(s: State, t: nat)
    requires FromOne(s) && ThreadOf(s, t).Counting?
    ensures ThreadOf(s, t).ord >= 1
  {
  }

  lemma JustCounted(a: seq<Line>, b: seq<Line>, n: nat, key: Key)
    requires n <= |a| && |b| == |a| + 1 && b[|a|].Count? && b[|a|].key == key
    ensures CountedAfter(b, n, key)
  {
  }

  /** Step m of the run is thread t beginning the block that will close the log. */
  ghost predicate BeginsClosing(schedule: Schedule, m: nat, t: nat) {
    && m < |schedule| && schedule[m].0 == t
    && var s := Run(Init(), schedule[..m]); ThreadOf(s, t) == AtDump && s.isOpen && !s.dumped
  }

  lemma {:induction false} ClosingRun(schedule: Schedule, m: nat, t: nat, at: nat, n: nat)
    requires KeysFit(schedule) && BeginsClosing(schedule, m, t) && m < n <= |schedule|
    requires at < CAP && Run(Init(), schedule[..m]).slots[at].state == 2
    ensures var first := |Run(Init(), schedule[..m]).log| + 1;
      var s := Run(Init(), schedule[..n]);
      Closing(s, t, first, at) && first <= |s.log|
    decreases n
  {
    hide Step, Closing, FromOne, Inv, KeysFit;
    var s := Run(Init(), schedule[..n - 1]);
    assert schedule[..n][..n - 1] == schedule[..n - 1];
    KeysFitBefore(schedule, n - 1);
    RunInv(schedule[..n - 1]);
    if n - 1 == m {
      ClosingBegins(s, t, at, schedule[m].1);
    } else {
      ClosingRun(schedule, m, t, at, n - 1);
      RunFromOne(schedule[..n - 1]);
      ClosingStep(s, t, |Run(Init(), schedule[..m]).log| + 1, at, schedule[n - 1].0, schedule[n - 1].1);
      StepLog(s, schedule[n - 1].0, schedule[n - 1].1);
    }
  }

  lemma ClosingBegins(s: State, t: nat, at: nat, c: Choice)
    requires Inv(s) && ThreadOf(s, t) == AtDump && s.isOpen && !s.dumped && at < CAP && s.slots[at].state == 2
    ensures Closing(Step(s, t, c), t, |s.log| + 1, at) && |Step(s, t, c).log| == |s.log| + 1
  {
    assert Holds(ThreadOf(s, t)) <==> s.lock == Some(t);
    assert SlotOk(s, at);
    assert Step(s, t, c) == DumpStep(s, t);
  }

  /** The last count line of a key. */
  lemma {:induction false} LastCountLine(lines: seq<Line>, n: nat, key: Key) returns (k: nat)
    requires CountedAfter(lines, n, key)
    ensures n <= k < |lines| && lines[k].Count? && lines[k].key == key
    ensures KeyText(key) in LastCounts(lines) && LastCounts(lines)[KeyText(key)] == lines[k].bucket
    decreases |lines|
  {
    var i :| n <= i < |lines| && lines[i].Count? && lines[i].key == key;
    k := |lines| - 1;
    if !(lines[k].Count? && lines[k].key == key) {
      assert lines[..k][i] == lines[i];
      if lines[k].Count? && KeyText(lines[k].key) == KeyText(key) { KeyTextInjective(lines[k].key, key); }
      k := LastCountLine(lines[..k], n, key);
    }
  }

  /** What the gate reads for a key in a closed log. Its bucket lies between the calls
      counted when the closing block began and those counted at the end; with no call on
      the key in progress then or begun since, it is the bucket of all the calls made. */
  lemma ClosedLogCounts(schedule: Schedule, m: nat, t: nat, key: Key)
    requires KeysFit(schedule) && KeysPlain(schedule) && Begun(schedule, key) < WORD
    requires BeginsClosing(schedule, m, t) && HasPublished(Run(Init(), schedule[..m]), key)
    requires !Run(Init(), schedule).isOpen
    ensures var was, s := Run(Init(), schedule[..m]), Run(Init(), schedule);
      var r := ReadLines(EMPTY, Split(FileText(s.log), '\n'));
      && KeyText(key) in r.counts
      && Rank(Tally(was, key)) <= BucketIndex(r.counts[KeyText(key)]) <= Rank(Tally(s, key))
      && (ServingOn(was.threads, key) == {} && Begun(schedule[..m], key) == Begun(schedule, key) ==>
            r.counts[KeyText(key)] == Bucket(Begun(schedule, key)))
  {
    hide Tally, Bucket, BucketIndex, Begun, KeysFit, KeysPlain, ReadLines, FileText, Split, Rank, CountedAfter, Run, LastCounts;
    var was, s := Run(Init(), schedule[..m]), Run(Init(), schedule);
    assert schedule[..|schedule|] == schedule && s.log[..|s.log|] == s.log;
    LogSurvivesAKill(schedule, |s.log|);
    var at :| 0 <= at < |was.slots| && was.slots[at].state == 2 && was.slots[at].key == key;
    ClosingRun(schedule, m, t, at, |schedule|);
    PublishedSince(schedule, m, at);
    var k := LastCountLine(s.log, |was.log| + 1, key);
    var p := CountWrittenAt(schedule, k);
    if p < m { RunGrows(schedule, p, m, key); }
    RunGrows(schedule, m, p, key);
    RunGrows(schedule, p, |schedule|, key);
    TallyAtMostBegun(schedule, key);
    var x := Tally(Run(Init(), schedule[..p]), key);
    RanksBetween(Tally(was, key), x, Tally(s, key));
    if ServingOn(was.threads, key) == {} && Begun(schedule[..m], key) == Begun(schedule, key) {
      BegunReturnedOrServed(schedule[..m], key);
      TallyAtLeastReturned(was, key);
      assert x == Begun(schedule, key);
    }
  }

  lemma TallyAtLeastReturned(s: State, key: Key)
    ensures s.returned[key] <= Tally(s, key)
  {
  }

  lemma RanksBetween(a: nat, x: nat, b: nat)
    requires a <= x <= b
    ensures Rank(a) <= BucketIndex(Bucket(x)) <= Rank(b)
  {
    hide Bucket, BucketIndex;
    BucketHasRank(x);
  }

  /** A published slot keeps its key from step m to the end of the run. */
  lemma PublishedSince(schedule: Schedule, m: nat, at: nat)
    requires KeysFit(schedule) && m <= |schedule| && at < CAP && Run(Init(), schedule[..m]).slots[at].state == 2
    ensures Run(Init(), schedule).slots[at].key == Run(Init(), schedule[..m]).slots[at].key
  {
    hide Run, Step, KeysFit;
    KeysFitBefore(schedule, m);
    RunInv(schedule[..m]);
    assert SlotOk(Run(Init(), schedule[..m]), at);
    ClaimsAreKept(schedule, m);
  }

  lemma {:induction false} ReadMeansCounted(lines: seq<Line>, key: Key)
    requires KeyText(key) in LastCounts(lines)
    ensures CountedAfter(lines, 0, key)
    decreases |lines|
  {
    var last := |lines| - 1;
    if lines[last].Count? && KeyText(lines[last].key) == KeyText(key) {
      KeyTextInjective(lines[last].key, key);
    } else {
      ReadMeansCounted(lines[..last], key);
      StillCounted(lines[..last], lines, 0, key);
    }
  }

  /** The bucket read for a key in any log, however it was cut, is at most the one of the
      calls counted on it in the whole run. */
  lemma ReadCountAtMost(schedule: Schedule, n: nat, key: Key)
    requires KeysFit(schedule) && Begun(schedule, key) < WORD && n <= |Run(Init(), schedule).log|
    requires KeyText(key) in LastCounts(Run(Init(), schedule).log[..n])
    ensures BucketIndex(LastCounts(Run(Init(), schedule).log[..n])[KeyText(key)]) <= Rank(Tally(Run(Init(), schedule), key))
  {
    hide Tally, Bucket, BucketIndex, Begun, KeysFit, Rank, CountedAfter, Run, LastCounts;
    var s := Run(Init(), schedule);
    var lines := s.log[..n];
    ReadMeansCounted(lines, key);
    var k := LastCountLine(lines, 0, key);
    assert lines[k] == s.log[k];
    var p := CountWrittenAt(schedule, k);
    RunGrows(schedule, p, |schedule|, key);
    assert schedule[..|schedule|] == schedule;
    TallyAtMostBegun(schedule, key);
    var x := Tally(Run(Init(), schedule[..p]), key);
    RanksBetween(x, x, Tally(s, key));
  }

  /** When the gate finds a key's bucket lower in a closed log than in a golden one, cut
      wherever it was, then really fewer calls on it were counted by the time the log began
      to close than in the whole golden run. */
  lemma DropIsReal(golden: Schedule, n: nat, current: Schedule, m: nat, t: nat, key: Key)
    requires KeysFit(golden) && KeysPlain(golden) && Begun(golden, key) < WORD && n <= |Run(Init(), golden).log|
    requires KeysFit(current) && KeysPlain(current) && Begun(current, key) < WORD
    requires BeginsClosing(current, m, t) && !Run(Init(), current).isOpen
    requires HasPublished(Run(Init(), current[..m]), key)
    ensures var g := ReadLines(EMPTY, Split(FileText(Run(Init(), golden).log[..n]), '\n'));
      var c := ReadLines(EMPTY, Split(FileText(Run(Init(), current).log), '\n'));
      KeyText(key) in g.counts ==>
        && KeyText(key) in c.counts
        && (BucketIndex(c.counts[KeyText(key)]) < BucketIndex(g.counts[KeyText(key)]) ==>
              Tally(Run(Init(), current[..m]), key) < Tally(Run(Init(), golden), key))
  {
    hide Tally, Bucket, BucketIndex, Begun, KeysFit, KeysPlain, ReadLines, FileText, Split, Rank, Run, LastCounts;
    LogSurvivesAKill(golden, n);
    ClosedLogCounts(current, m, t, key);
    if KeyText(key) in LastCounts(Run(Init(), golden).log[..n]) {
      ReadCountAtMost(golden, n, key);
      RankReflects(Tally(Run(Init(), current[..m]), key), Tally(Run(Init(), golden), key));
    }
  }

  lemma RankReflects(a: nat, b: nat)
    ensures Rank(a) < Rank(b) ==> a < b
  {
  }
}
