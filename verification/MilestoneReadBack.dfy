/** Reading the log of any run, cut off after any line. */
module MilestoneReadBack {
  import opened Common
  import opened Milestone
  import opened MilestoneProof
  import opened MilestoneRuns
  import opened MilestoneLog
  import opened MilestoneJournal
  import opened MilestoneKv
  import opened Text

  /** The key a thread carries, whatever it is doing with it. */
  function Carried(th: Thread): Key {
    match th
    case WantKv(key, _) => key
    case WritingKv(key, _) => key
    case _ => match Serving(th) case Some(key) => key case None => []
  }

  ghost predicate ThreadsPlain(threads: map<nat, Thread>) {
    forall t :: t in threads ==> PlainKey(Carried(threads[t]))
  }

  ghost predicate SlotsPlain(slots: seq<Slot>) {
    forall at :: 0 <= at < |slots| ==> PlainKey(slots[at].key)
  }

  ghost predicate ChoicePlain(c: Choice) {
    (c.Call? || c.CallKv?) ==> PlainKey(c.key)
  }

  ghost predicate KeysPlain(schedule: Schedule) {
    forall k :: 0 <= k < |schedule| ==> ChoicePlain(schedule[k].1)
  }

  ghost predicate Plain(s: State) {
    ThreadsPlain(s.threads) && SlotsPlain(s.slots) && AllPrintable(s.log)
  }

  lemma PlainBuckets(n: nat)
    ensures PlainBucket(Bucket(n))
  {
  }

  lemma MovePlain(s: State, s2: State, t: nat, th: Thread)
    requires ThreadsPlain(s.threads) && s2.threads == s.threads[t := th] && PlainKey(Carried(th))
    ensures ThreadsPlain(s2.threads)
  {
  }

  lemma FreeStepPlain(s: State, t: nat, c: Choice)
    requires |s.slots| == CAP && Plain(s) && ChoicePlain(c) && !Holds(ThreadOf(s, t))
    ensures Plain(FreeStep(s, t, c))
  {
    var s2 := FreeStep(s, t, c);
    FreeStepQuiet(s, t, c);
    FreeStepCarries(s, t, c);
    assert PlainKey(Carried(ThreadOf(s, t)));
    if s2.threads != s.threads { MovePlain(s, s2, t, ThreadOf(s2, t)); }
    forall at | 0 <= at < CAP ensures PlainKey(s2.slots[at].key) {
      assert s2.slots[at].key == s.slots[at].key;
    }
  }

  /** Thread t moved, if at all, and carries its own key, none, or the one it was given. */
  ghost predicate Carries(s: State, s2: State, t: nat, c: Choice) {
    s2.threads == s.threads
    || (s2.threads == s.threads[t := ThreadOf(s2, t)]
        && (Carried(ThreadOf(s2, t)) == Carried(ThreadOf(s, t)) || Carried(ThreadOf(s2, t)) == []
            || ((c.Call? || c.CallKv?) && Carried(ThreadOf(s2, t)) == c.key)))
  }

  lemma BeginCarries(s: State, t: nat, c: Choice)
    requires ThreadOf(s, t) == Idle
    ensures Carries(s, Begin(s, t, c), t, c)
  {
  }

  lemma ScanCarries(s: State, t: nat, c: Choice, key: Key, i: nat)
    requires |s.slots| == CAP && ThreadOf(s, t) == Scan(key, i)
    ensures Carries(s, ScanStep(s, t, key, i), t, c)
  {
  }

  lemma AcquireCarries(s: State, t: nat, c: Choice, th: Thread)
    requires Carried(th) == Carried(ThreadOf(s, t))
    ensures Carries(s, Acquire(s, t, th), t, c)
  {
  }

  lemma FreeStepCarries(s: State, t: nat, c: Choice)
    requires |s.slots| == CAP && !Holds(ThreadOf(s, t))
    ensures Carries(s, FreeStep(s, t, c), t, c)
  {
    match ThreadOf(s, t)
    case Idle => BeginCarries(s, t, c);
    case WantCheckpoint(key) => AcquireCarries(s, t, c, AtCheckpoint(key));
    case Scan(key, i) => ScanCarries(s, t, c, key, i);
    case WantInsert(key) => AcquireCarries(s, t, c, LockedScan(key, 0));
    case WantKv(key, value) => AcquireCarries(s, t, c, WritingKv(key, value));
    case WantDump => AcquireCarries(s, t, c, AtDump);
    case Hit(key, at) => HitCarries(s, t, c, at, Returning(key, true));
    case Returning(key, _) => ReturnCarries(s, t, c, key);
  }

  lemma HitCarries(s: State, t: nat, c: Choice, at: nat, next: Thread)
    requires |s.slots| == CAP && Carried(next) == Carried(ThreadOf(s, t))
    ensures Carries(s, HitStep(s, t, at, next), t, c)
  {
  }

  lemma ReturnCarries(s: State, t: nat, c: Choice, key: Key)
    ensures Carries(s, Return(s, t, key), t, c)
  {
  }

  lemma LockedScanPlain(s: State, t: nat, key: Key, i: nat)
    requires |s.slots| == CAP && Plain(s) && ThreadOf(s, t) == LockedScan(key, i)
    ensures Plain(LockedScanStep(s, t, key, i))
  {
    assert PlainKey(Carried(ThreadOf(s, t)));
    var s2 := LockedScanStep(s, t, key, i);
    LockedScanCarries(s, t, key, i);
    MovePlain(s, s2, t, ThreadOf(s2, t));
    LockedScanSlots(s, t, key, i);
  }

  lemma LockedScanCarries(s: State, t: nat, key: Key, i: nat)
    requires |s.slots| == CAP && ThreadOf(s, t) == LockedScan(key, i)
    ensures var s2 := LockedScanStep(s, t, key, i);
      s2.threads == s.threads[t := ThreadOf(s2, t)] && Carried(ThreadOf(s2, t)) == key && s2.log == s.log
  {
  }

  lemma LockedScanSlots(s: State, t: nat, key: Key, i: nat)
    requires |s.slots| == CAP && SlotsPlain(s.slots) && PlainKey(key)
    ensures SlotsPlain(LockedScanStep(s, t, key, i).slots)
  {
    assert PlainKey(Truncate(key));
  }

  lemma HitPlain(s: State, t: nat, at: nat, next: Thread)
    requires |s.slots| == CAP && Plain(s) && PlainKey(Carried(next))
    ensures Plain(HitStep(s, t, at, next))
  {
    var s2 := HitStep(s, t, at, next);
    if s2 != s { MovePlain(s, s2, t, next); }
    forall a | 0 <= a < CAP ensures PlainKey(s2.slots[a].key) {
      assert s2.slots[a].key == s.slots[a].key;
    }
  }

  lemma PublishPlain(s: State, t: nat, key: Key, at: nat)
    requires |s.slots| == CAP && Plain(s) && PlainKey(key)
    ensures Plain(Publish(s, t, key, at))
  {
    var s2 := Publish(s, t, key, at);
    if s2 != s { MovePlain(s, s2, t, Published(key, at)); }
    forall a | 0 <= a < CAP ensures PlainKey(s2.slots[a].key) {
      assert s2.slots[a].key == s.slots[a].key;
    }
  }

  lemma StreamPlain(s: State, t: nat, key: Key, at: nat)
    requires |s.slots| == CAP && Plain(s) && ThreadOf(s, t) == Published(key, at)
    ensures Plain(StreamStep(s, t, key, at))
  {
    assert PlainKey(Carried(ThreadOf(s, t)));
    var s2 := StreamStep(s, t, key, at);
    MovePlain(s, s2, t, ThreadOf(s2, t));
  }

  lemma MaybeCountsPlain(s: State, t: nat, due: bool, next: Then)
    requires Plain(s) && PlainKey(Carried(Unlocking(next)))
    ensures Plain(MaybeCounts(s, t, due, next))
  {
    var s2 := MaybeCounts(s, t, due, next);
    MovePlain(s, s2, t, ThreadOf(s2, t));
  }

  lemma CountPlain(s: State, t: nat, ord: nat, next: Then)
    requires |s.slots| == CAP && Plain(s) && PlainKey(Carried(Counting(ord, next)))
    ensures Plain(CountStep(s, t, ord, next))
  {
    var s2 := CountStep(s, t, ord, next);
    MovePlain(s, s2, t, ThreadOf(s2, t));
    PlainBuckets(s.slots[ByOrd(s.slots, ord)].hits);
    CountPrintable(s, t, ord, next);
  }

  lemma CountPrintable(s: State, t: nat, ord: nat, next: Then)
    requires |s.slots| == CAP && SlotsPlain(s.slots) && AllPrintable(s.log)
    requires PlainBucket(Bucket(s.slots[ByOrd(s.slots, ord)].hits))
    ensures AllPrintable(CountStep(s, t, ord, next).log)
  {
    var slot := s.slots[ByOrd(s.slots, ord)];
    assert Printable(Count(slot.key, Bucket(slot.hits))) && Printable(End);
  }

  lemma KvPlain(s: State, t: nat, key: Key, value: int)
    requires Plain(s) && PlainKey(key)
    ensures Plain(KvStep(s, t, key, value))
  {
    assert Printable(Kv(key, value));
    MovePlain(s, KvStep(s, t, key, value), t, Unlocking(ThenIdle));
  }

  lemma DumpPlain(s: State, t: nat)
    requires Plain(s)
    ensures Plain(DumpStep(s, t))
  {
    MovePlain(s, DumpStep(s, t), t, ThreadOf(DumpStep(s, t), t));
  }

  lemma UnlockPlain(s: State, t: nat, next: Then)
    requires Plain(s) && PlainKey(Carried(Unlocking(next)))
    ensures Plain(Unlock(s, t, next))
  {
    MovePlain(s, Unlock(s, t, next), t, After(next));
  }

  lemma HolderStepPlain(s: State, t: nat, c: Choice)
    requires |s.slots| == CAP && Plain(s) && Holds(ThreadOf(s, t))
    ensures Plain(HolderStep(s, t, c))
  {
    assert PlainKey(Carried(ThreadOf(s, t)));
    match ThreadOf(s, t)
    case LockedScan(key, i) => LockedScanPlain(s, t, key, i);
    case Published(key, at) => StreamPlain(s, t, key, at);
    case Streamed(key) => MaybeCountsPlain(s, t, c == Go(true), ThenReturn(key, true));
    case AtCheckpoint(key) => MaybeCountsPlain(s, t, c == Go(true), ThenScan(key));
    case Counting(ord, next) => CountPlain(s, t, ord, next);
    case LockedHit(key, at) => HitPlain(s, t, at, Unlocking(ThenReturn(key, true)));
    case Written(key, at) => PublishPlain(s, t, key, at);
    case WritingKv(key, value) => KvPlain(s, t, key, value);
    case AtDump => DumpPlain(s, t);
    case Unlocking(next) => UnlockPlain(s, t, next);
  }

  lemma StepPlain(s: State, t: nat, c: Choice)
    requires |s.slots| == CAP && Plain(s) && ChoicePlain(c)
    ensures Plain(Step(s, t, c))
  {
    if Holds(ThreadOf(s, t)) { HolderStepPlain(s, t, c); } else { FreeStepPlain(s, t, c); }
  }

  lemma {:induction false} RunPlain(schedule: Schedule)
    requires KeysPlain(schedule)
    ensures Plain(Run(Init(), schedule))
    decreases |schedule|
  {
    if schedule != [] {
      var before := schedule[..|schedule| - 1];
      assert KeysPlain(before) by {
        forall k | 0 <= k < |before| ensures ChoicePlain(before[k].1) { assert before[k] == schedule[k]; }
      }
      RunPlain(before);
      StepPlain(Run(Init(), before), schedule[|schedule| - 1].0, schedule[|schedule| - 1].1);
    }
  }

  // ----- what a reader finds ----------------------------------------------------

  lemma {:induction false} StreamKeysAre(lines: seq<Line>)
    ensures |StreamKeys(lines)| == |Streams(lines)|
    ensures forall i :: 0 <= i < |Streams(lines)| ==> StreamKeys(lines)[i] == KeyText(Streams(lines)[i].1)
    decreases |lines|
  {
    if lines != [] {
      var last := |lines| - 1;
      assert lines == lines[..last] + [lines[last]];
      StreamKeysAre(lines[..last]);
    }
  }

  lemma {:induction false} StreamsPrefix(lines: seq<Line>, n: nat)
    requires n <= |lines|
    ensures Streams(lines[..n]) <= Streams(lines)
    decreases |lines|
  {
    if n < |lines| {
      var last := |lines| - 1;
      StreamsPrefix(lines[..last], n);
      assert lines[..last][..n] == lines[..n];
    } else {
      assert lines[..n] == lines;
    }
  }

  /** The log of any run, cut off after any whole line, reads back as: the keys inserted
      first, in the order of their ordinals from 1; the last bucket written for each key;
      and for each key the last value given by the calls recorded so far, in the order of
      their turns to write. Nothing is missing from the keys when the log is whole, still
      open and no insert is under way, and no call that gave a value is missing when no such
      call is. */
  lemma LogSurvivesAKill(schedule: Schedule, n: nat)
    requires KeysFit(schedule) && KeysPlain(schedule)
    requires n <= |Run(Init(), schedule).log|
    ensures var s := Run(Init(), schedule);
      var lines := s.log[..n];
      var r := ReadLines(EMPTY, Split(FileText(lines), '\n'));
      && |s.order| == s.nextOrd && |r.stream| <= s.nextOrd
      && (forall i :: 0 <= i < |r.stream| ==>
            s.order[i] < CAP && s.slots[s.order[i]].ord == i + 1
            && r.stream[i] == KeyText(s.slots[s.order[i]].key))
      && r.counts == LastCounts(lines) && r.kv == LastValues(lines)
      && (n == |s.log| && s.isOpen && s.lock == None ==> |r.stream| == s.nextOrd)
      && KvLines(lines) <= RecordedKv(schedule)
      && (forall key :: LastValueOf(KvLines(lines), key) == if KeyText(key) in r.kv then Some(r.kv[KeyText(key)]) else None)
      && (n == |s.log| ==> KvLines(lines) == RecordedKv(schedule))
      && (s.isOpen && NoKvInProgress(s) ==> multiset(RecordedKv(schedule)) == multiset(BegunKv(schedule)))
  {
    hide RecordedKv, BegunKv, KvLines, LastValueOf, NoKvInProgress;
    var s := Run(Init(), schedule);
    KvLinesAreRecorded(schedule);
    KvLinesPrefix(s.log, n);
    if s.isOpen && NoKvInProgress(s) { AllRecorded(schedule); }
    forall key ensures LastValueOf(KvLines(s.log[..n]), key) ==
      if KeyText(key) in LastValues(s.log[..n]) then Some(LastValues(s.log[..n])[KeyText(key)]) else None
    {
      ReadIsLastValue(s.log[..n], key);
    }
    RunLog(schedule);
    RunPlain(schedule);
    var lines := s.log[..n];
    ReaderInvertsWriter(lines);
    StreamKeysAre(lines);
    StreamsPrefix(s.log, n);
    if n == |s.log| { assert lines == s.log; }
  }

  // ----- the counts block --------------------------------------------------------

  /** While the lock is held for a counts block, each ordinal given out so far gets the
      line of its own slot, with the bucket of its hits at that moment. */
  lemma CountStepWritesItsSlot(s: State, t: nat, ord: nat, next: Then)
    requires Inv(s) && ThreadOf(s, t) == Counting(ord, next) && 1 <= ord <= s.nextOrd
    ensures s.order[ord - 1] < CAP
    ensures var slot := s.slots[s.order[ord - 1]];
      slot.ord == ord && CountStep(s, t, ord, next).log == s.log + [Count(slot.key, Bucket(slot.hits))]
  {
    OrderBound(s);
    var at := s.order[ord - 1];
    assert s.slots[at].ord == ord;
    assert SlotOk(s, at);
    assert Holds(ThreadOf(s, t)) <==> s.lock == Some(t);
    assert s.slots[at].state == 2;
    var found := ByOrd(s.slots, ord);
    assert SlotOk(s, found);
  }

  /** Some earlier state of the run had this bucket for this key. */
  ghost predicate WasTrue(schedule: Schedule, key: Key, bucket: string) {
    exists m, at :: 0 <= m <= |schedule| && 0 <= at < CAP && HadBucket(Run(Init(), schedule[..m]), at, key, bucket)
  }

  ghost predicate HadBucket(s: State, at: nat, key: Key, bucket: string) {
    at < |s.slots| && s.slots[at].key == key && Bucket(s.slots[at].hits) == bucket
  }

  lemma NewCountIsTrue(s: State, t: nat, c: Choice, key: Key, bucket: string)
    requires |s.slots| == CAP && |Step(s, t, c).log| == |s.log| + 1
    requires Step(s, t, c).log[|s.log|] == Count(key, bucket)
    ensures exists at :: 0 <= at < CAP && HadBucket(s, at, key, bucket)
  {
    if Holds(ThreadOf(s, t)) {
      HolderCountsTruly(s, t, c, key, bucket);
    } else {
      FreeStepQuiet(s, t, c);
    }
  }

  lemma HolderCountsTruly(s: State, t: nat, c: Choice, key: Key, bucket: string)
    requires |s.slots| == CAP && Holds(ThreadOf(s, t)) && |HolderStep(s, t, c).log| == |s.log| + 1
    requires HolderStep(s, t, c).log[|s.log|] == Count(key, bucket)
    ensures exists at :: 0 <= at < CAP && HadBucket(s, at, key, bucket)
  {
    if ThreadOf(s, t).Counting? {
      CountsTruly(s, t, ThreadOf(s, t).ord, ThreadOf(s, t).then_, key, bucket);
    } else {
      OthersDoNotCount(s, t, c);
    }
  }

  lemma CountsTruly(s: State, t: nat, ord: nat, next: Then, key: Key, bucket: string)
    requires |s.slots| == CAP && |CountStep(s, t, ord, next).log| == |s.log| + 1
    requires CountStep(s, t, ord, next).log[|s.log|] == Count(key, bucket)
    ensures exists at :: 0 <= at < CAP && HadBucket(s, at, key, bucket)
  {
    assert HadBucket(s, ByOrd(s.slots, ord), key, bucket);
  }

  lemma OthersDoNotCount(s: State, t: nat, c: Choice)
    requires |s.slots| == CAP && Holds(ThreadOf(s, t)) && !ThreadOf(s, t).Counting?
    ensures |HolderStep(s, t, c).log| == |s.log| + 1 ==> !HolderStep(s, t, c).log[|s.log|].Count?
  {
  }

  lemma StepLog(s: State, t: nat, c: Choice)
    requires |s.slots| == CAP
    ensures |s.log| <= |Step(s, t, c).log| <= |s.log| + 1 && s.log <= Step(s, t, c).log
  {
    if Holds(ThreadOf(s, t)) { HolderStepLog(s, t, c); } else { FreeStepQuiet(s, t, c); }
  }

  lemma HolderStepLog(s: State, t: nat, c: Choice)
    requires |s.slots| == CAP && Holds(ThreadOf(s, t))
    ensures |s.log| <= |HolderStep(s, t, c).log| <= |s.log| + 1 && s.log <= HolderStep(s, t, c).log
  {
  }

  lemma WasTrueLater(schedule: Schedule, last: nat, key: Key, bucket: string)
    requires last <= |schedule| && WasTrue(schedule[..last], key, bucket)
    ensures WasTrue(schedule, key, bucket)
  {
    var m, at :| 0 <= m <= last && 0 <= at < CAP
                 && HadBucket(Run(Init(), schedule[..last][..m]), at, key, bucket);
    assert schedule[..m] == schedule[..last][..m];
  }

  lemma WasTrueNow(schedule: Schedule, last: nat, s: State, t: nat, c: Choice, key: Key, bucket: string)
    requires last <= |schedule| && s == Run(Init(), schedule[..last])
    requires |Step(s, t, c).log| == |s.log| + 1 && Step(s, t, c).log[|s.log|] == Count(key, bucket)
    ensures WasTrue(schedule, key, bucket)
  {
    NewCountIsTrue(s, t, c, key, bucket);
    var at :| 0 <= at < CAP && HadBucket(s, at, key, bucket);
    assert HadBucket(Run(Init(), schedule[..last]), at, key, bucket);
  }

  /** Every count line in the log of a run was the truth about its key at some point of it. */
  lemma {:induction false} CountsWereTrue(schedule: Schedule, i: nat)
    requires i < |Run(Init(), schedule).log| && Run(Init(), schedule).log[i].Count?
    ensures var line := Run(Init(), schedule).log[i];
            WasTrue(schedule, line.key, line.bucket)
    decreases |schedule|
  {
    hide WasTrue, Step;
    if schedule != [] {
      var last := |schedule| - 1;
      var (t, c) := schedule[last];
      var s := Run(Init(), schedule[..last]);
      StepLog(s, t, c);
      var line := Step(s, t, c).log[i];
      if i < |s.log| {
        CountsWereTrue(schedule[..last], i);
        WasTrueLater(schedule, last, line.key, line.bucket);
      } else {
        WasTrueNow(schedule, last, s, t, c, line.key, line.bucket);
      }
    }
  }

  // ----- the gate's order of buckets ---------------------------------------------

  const BUCKETS: seq<string> := ["0", "1", "2-9", "10-99", "100-999", "1k-9k", "10k-99k", "100k+"]

  /** Where the gate finds a bucket in its list. */
  function BucketIndex(b: string): int {
    if b == BUCKETS[0] then 0 else if b == BUCKETS[1] then 1 else if b == BUCKETS[2] then 2
    else if b == BUCKETS[3] then 3 else if b == BUCKETS[4] then 4 else if b == BUCKETS[5] then 5
    else if b == BUCKETS[6] then 6 else if b == BUCKETS[7] then 7 else -1
  }

  function Rank(n: nat): nat {
    if n == 0 then 0 else if n == 1 then 1 else if n < 10 then 2 else if n < 100 then 3
    else if n < 1000 then 4 else if n < 10000 then 5 else if n < 100000 then 6 else 7
  }

  lemma BucketHasRank(n: nat)
    ensures BucketIndex(Bucket(n)) == Rank(n)
  {
    assert |BUCKETS[2]| == 3 && |BUCKETS[3]| == 5 && |BUCKETS[4]| == 7 && |BUCKETS[5]| == 5;
    assert BUCKETS[5][1] == 'k' && BUCKETS[3][1] == '0';
    assert |BUCKETS[6]| == 7 && BUCKETS[6][2] == 'k' && BUCKETS[4][2] == '0';
    assert BUCKETS[0][0] == '0' && BUCKETS[1][0] == '1';
    assert |BUCKETS[7]| == 5 && BUCKETS[7][4] == '+' && BUCKETS[3][4] == '9' && BUCKETS[5][4] == 'k';
  }

  /** A key the gate reports as dropped was called fewer times than in the golden run. */
  lemma DroppedMeansFewer(golden: nat, current: nat)
    ensures BucketIndex(Bucket(current)) < BucketIndex(Bucket(golden)) ==> current < golden
    ensures 0 <= BucketIndex(Bucket(golden)) < 8
  {
    hide Bucket, BucketIndex;
    BucketHasRank(golden);
    BucketHasRank(current);
  }
}
