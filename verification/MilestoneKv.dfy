/** The values recorded for keys: every call of ps3_ms_kv, from its start to its line. */
module MilestoneKv {
  import opened Common
  import opened Milestone
  import opened MilestoneProof
  import opened MilestoneRuns
  import opened MilestoneLog
  import opened MilestoneJournal

  type KvCall = (Key, int)

  /** The value a thread is about to record. */
  function Carrying(th: Thread): Option<KvCall> {
    match th
    case WantKv(key, value) => Some((key, value))
    case WritingKv(key, value) => Some((key, value))
    case _ => None
  }

  function CarryingOn(threads: map<nat, Thread>, kv: KvCall): (ts: set<nat>)
    ensures forall t :: t in ts <==> t in threads && Carrying(threads[t]) == Some(kv)
  {
    set t | t in threads && Carrying(threads[t]) == Some(kv)
  }

  /** The calls a choice of thread t begins: one that is given a key. */
  function BeginsKv(s: State, t: nat, c: Choice): seq<KvCall> {
    if ThreadOf(s, t) == Idle && c.CallKv? && c.key != [] then [(c.key, c.value)] else []
  }

  /** The call whose line is due at the next step of thread t. */
  function Due(s: State, t: nat): seq<KvCall> {
    if ThreadOf(s, t).WritingKv? then [(ThreadOf(s, t).key, ThreadOf(s, t).value)] else []
  }

  /** The calls begun, in order; those that found the log open when their turn to write
      came, in the order of those turns; and those that found it closed. */
  function BegunKv(schedule: Schedule): seq<KvCall>
    decreases |schedule|
  {
    if schedule == [] then []
    else
      var before := schedule[..|schedule| - 1];
      var (t, c) := schedule[|schedule| - 1];
      BegunKv(before) + BeginsKv(Run(Init(), before), t, c)
  }

  function RecordedKv(schedule: Schedule): seq<KvCall>
    decreases |schedule|
  {
    if schedule == [] then []
    else
      var before := schedule[..|schedule| - 1];
      var (t, _) := schedule[|schedule| - 1];
      var s := Run(Init(), before);
      RecordedKv(before) + (if s.isOpen then Due(s, t) else [])
  }

  function RefusedKv(schedule: Schedule): seq<KvCall>
    decreases |schedule|
  {
    if schedule == [] then []
    else
      var before := schedule[..|schedule| - 1];
      var (t, _) := schedule[|schedule| - 1];
      var s := Run(Init(), before);
      RefusedKv(before) + (if s.isOpen then [] else Due(s, t))
  }

  // ----- no call is lost or made up --------------------------------------------------------

  lemma OthersCarry(threads: map<nat, Thread>, t: nat, th: Thread, kv: KvCall)
    ensures CarryingOn(threads, kv) - {t} == CarryingOn(threads[t := th], kv) - {t}
    ensures t in CarryingOn(threads[t := th], kv) <==> Carrying(th) == Some(kv)
  {
    forall u | u != t ensures u in CarryingOn(threads, kv) <==> u in CarryingOn(threads[t := th], kv) {}
  }

  lemma CarryingMove(threads: map<nat, Thread>, t: nat, th: Thread, kv: KvCall)
    ensures |CarryingOn(threads[t := th], kv)| == |CarryingOn(threads, kv)|
      - (if t in threads && Carrying(threads[t]) == Some(kv) then 1 else 0) + (if Carrying(th) == Some(kv) then 1 else 0)
  {
    OthersCarry(threads, t, th, kv);
    WithoutOne(CarryingOn(threads, kv), t);
    WithoutOne(CarryingOn(threads[t := th], kv), t);
  }

  /** Thread t alone may have moved. */
  ghost predicate OnlyThread(s: State, s2: State, t: nat) {
    s2.threads == s.threads || s2.threads == s.threads[t := ThreadOf(s2, t)]
  }

  ghost predicate CarriesNone(s: State, s2: State, t: nat) {
    OnlyThread(s, s2, t) && Carrying(ThreadOf(s2, t)) == None
  }

  lemma BeginCarries(s: State, t: nat, c: Choice)
    requires ThreadOf(s, t) == Idle
    ensures OnlyThread(s, Begin(s, t, c), t)
    ensures Carrying(ThreadOf(Begin(s, t, c), t)) == (if BeginsKv(s, t, c) == [] then None else Some(BeginsKv(s, t, c)[0]))
  {
  }

  lemma ScanCarriesNone(s: State, t: nat, key: Key, i: nat)
    requires |s.slots| == CAP
    ensures CarriesNone(s, ScanStep(s, t, key, i), t)
  {
    hide Hash, Probe;
  }

  lemma LockedScanCarriesNone(s: State, t: nat, key: Key, i: nat)
    requires |s.slots| == CAP
    ensures CarriesNone(s, LockedScanStep(s, t, key, i), t)
  {
    hide Hash, Probe;
  }

  lemma AcquireCarriesNone(s: State, t: nat, th: Thread)
    requires Carrying(th) == None == Carrying(ThreadOf(s, t))
    ensures CarriesNone(s, Acquire(s, t, th), t)
  {
  }

  lemma HitCarriesNone(s: State, t: nat, at: nat, next: Thread)
    requires |s.slots| == CAP && Carrying(next) == None == Carrying(ThreadOf(s, t))
    ensures CarriesNone(s, HitStep(s, t, at, next), t)
  {
  }

  lemma FreeCarriesNone(s: State, t: nat, c: Choice)
    requires |s.slots| == CAP && !Holds(ThreadOf(s, t)) && !ThreadOf(s, t).Idle? && !ThreadOf(s, t).WantKv?
    ensures CarriesNone(s, FreeStep(s, t, c), t)
  {
    hide ScanStep, Acquire, HitStep, CarriesNone, Begin;
    match ThreadOf(s, t)
    case Scan(key, i) => ScanCarriesNone(s, t, key, i);
    case WantCheckpoint(key) => AcquireCarriesNone(s, t, AtCheckpoint(key));
    case WantInsert(key) => AcquireCarriesNone(s, t, LockedScan(key, 0));
    case WantDump => AcquireCarriesNone(s, t, AtDump);
    case Hit(key, at) => HitCarriesNone(s, t, at, Returning(key, true));
    case Returning(key, _) => ReturnCarriesNone(s, t, key);
  }

  lemma ReturnCarriesNone(s: State, t: nat, key: Key)
    ensures CarriesNone(s, Return(s, t, key), t)
  {
  }

  lemma HolderCarriesNone(s: State, t: nat, c: Choice)
    requires |s.slots| == CAP && Holds(ThreadOf(s, t))
    ensures OnlyThread(s, HolderStep(s, t, c), t)
    ensures Carrying(ThreadOf(HolderStep(s, t, c), t)) == None
  {
    hide LockedScanStep, CountStep, MaybeCounts, StreamStep;
    match ThreadOf(s, t)
    case LockedScan(key, i) => LockedScanCarriesNone(s, t, key, i);
    case Published(key, at) => StreamCarriesNone(s, t, key, at);
    case Streamed(key) => MaybeCountsCarriesNone(s, t, c == Go(true), ThenReturn(key, true));
    case AtCheckpoint(key) => MaybeCountsCarriesNone(s, t, c == Go(true), ThenScan(key));
    case Counting(ord, next) => CountCarriesNone(s, t, ord, next);
    case _ =>
  }

  lemma StreamCarriesNone(s: State, t: nat, key: Key, at: nat)
    requires |s.slots| == CAP
    ensures CarriesNone(s, StreamStep(s, t, key, at), t)
  {
  }

  lemma MaybeCountsCarriesNone(s: State, t: nat, due: bool, next: Then)
    ensures CarriesNone(s, MaybeCounts(s, t, due, next), t)
  {
  }

  lemma CountCarriesNone(s: State, t: nat, ord: nat, next: Then)
    requires |s.slots| == CAP
    ensures CarriesNone(s, CountStep(s, t, ord, next), t)
  {
    hide ByOrd, Bucket;
  }

  /** What a step does to the calls in progress: begins one, brings one to its line, or
      neither. */
  lemma StepCarries(s: State, t: nat, c: Choice)
    requires |s.slots| == CAP
    ensures var s2 := Step(s, t, c);
      && OnlyThread(s, s2, t)
      && Carrying(ThreadOf(s2, t)) ==
           if BeginsKv(s, t, c) != [] then Some(BeginsKv(s, t, c)[0])
           else if Due(s, t) != [] then None
           else Carrying(ThreadOf(s, t))
  {
    hide FreeStep, HolderStep, Begin;
    if Holds(ThreadOf(s, t)) {
      HolderCarriesNone(s, t, c);
    } else if ThreadOf(s, t).Idle? {
      assert FreeStep(s, t, c) == Begin(s, t, c) by { IdleBegins(s, t, c); }
      BeginCarries(s, t, c);
    } else if ThreadOf(s, t).WantKv? {
      WantKvCarries(s, t, c);
    } else {
      FreeCarriesNone(s, t, c);
    }
  }

  lemma IdleBegins(s: State, t: nat, c: Choice)
    requires |s.slots| == CAP && ThreadOf(s, t).Idle?
    ensures FreeStep(s, t, c) == Begin(s, t, c)
  {
  }

  lemma WantKvCarries(s: State, t: nat, c: Choice)
    requires |s.slots| == CAP && ThreadOf(s, t).WantKv?
    ensures var s2 := FreeStep(s, t, c); OnlyThread(s, s2, t) && Carrying(ThreadOf(s2, t)) == Carrying(ThreadOf(s, t))
  {
  }

  lemma CountSnoc(a: seq<KvCall>, b: seq<KvCall>, kv: KvCall)
    ensures multiset(a + b)[kv] == multiset(a)[kv] + multiset(b)[kv]
  {
  }

  lemma StepBalance(s: State, t: nat, c: Choice, kv: KvCall)
    requires |s.slots| == CAP
    ensures |CarryingOn(Step(s, t, c).threads, kv)| + multiset(Due(s, t))[kv]
            == |CarryingOn(s.threads, kv)| + multiset(BeginsKv(s, t, c))[kv]
  {
    hide Step;
    var s2 := Step(s, t, c);
    StepCarries(s, t, c);
    if s2.threads != s.threads { CarryingMove(s.threads, t, ThreadOf(s2, t), kv); }
  }

  /** In every run the calls begun with a key and a value are those recorded, those that
      found the log closed, and those still on their way. */
  lemma {:induction false} KvConserved(schedule: Schedule, kv: KvCall)
    ensures multiset(BegunKv(schedule))[kv] ==
      multiset(RecordedKv(schedule))[kv] + multiset(RefusedKv(schedule))[kv] + |CarryingOn(Run(Init(), schedule).threads, kv)|
    decreases |schedule|
  {
    hide Step, BeginsKv, Due;
    if schedule == [] {
      assert CarryingOn(Init().threads, kv) == {};
    } else {
      var before := schedule[..|schedule| - 1];
      var (t, c) := schedule[|schedule| - 1];
      var s := Run(Init(), before);
      KvConserved(before, kv);
      StepBalance(s, t, c, kv);
      CountSnoc(BegunKv(before), BeginsKv(s, t, c), kv);
      CountSnoc(RecordedKv(before), Due(s, t), kv);
      CountSnoc(RefusedKv(before), Due(s, t), kv);
    }
  }

  // ----- the lines ---------------------------------------------------------------------------

  function KvLines(lines: seq<Line>): seq<KvCall> {
    if lines == [] then []
    else
      var last := lines[|lines| - 1];
      KvLines(lines[..|lines| - 1]) + (if last.Kv? then [(last.key, last.value)] else [])
  }

  lemma KvLinesSnoc(lines: seq<Line>, line: Line)
    ensures KvLines(lines + [line]) == KvLines(lines) + (if line.Kv? then [(line.key, line.value)] else [])
  {
    assert (lines + [line])[..|lines|] == lines;
  }

  ghost predicate WritesNoKv(s: State, s2: State) {
    s2.log == s.log || exists line: Line :: !line.Kv? && s2.log == s.log + [line]
  }

  lemma HolderWritesNoKv(s: State, t: nat, c: Choice)
    requires |s.slots| == CAP && Holds(ThreadOf(s, t)) && !ThreadOf(s, t).WritingKv?
    ensures WritesNoKv(s, HolderStep(s, t, c))
  {
    hide LockedScanStep, CountStep, StreamStep;
    assert !CountsMark.Kv?;
    match ThreadOf(s, t)
    case LockedScan(key, i) => LockedScanWritesNothing(s, t, key, i);
    case Published(key, at) => StreamWritesNoKv(s, t, key, at);
    case Counting(ord, next) => CountWritesNoKv(s, t, ord, next);
    case _ =>
  }

  lemma LockedScanWritesNothing(s: State, t: nat, key: Key, i: nat)
    requires |s.slots| == CAP
    ensures LockedScanStep(s, t, key, i).log == s.log
  {
    hide Hash, Probe;
  }

  lemma StreamWritesNoKv(s: State, t: nat, key: Key, at: nat)
    requires |s.slots| == CAP
    ensures WritesNoKv(s, StreamStep(s, t, key, at))
  {
    if at < CAP { assert !Stream(s.slots[at].ord, s.slots[at].key).Kv?; }
  }

  lemma CountWritesNoKv(s: State, t: nat, ord: nat, next: Then)
    requires |s.slots| == CAP
    ensures WritesNoKv(s, CountStep(s, t, ord, next))
  {
    hide ByOrd, Bucket;
    var slot := s.slots[ByOrd(s.slots, ord)];
    assert !Count(slot.key, Bucket(slot.hits)).Kv? && !End.Kv?;
  }

  lemma StepWritesDue(s: State, t: nat, c: Choice)
    requires |s.slots| == CAP
    ensures KvLines(Step(s, t, c).log) == KvLines(s.log) + (if s.isOpen then Due(s, t) else [])
  {
    hide KvLines;
    var s2 := Step(s, t, c);
    if !Holds(ThreadOf(s, t)) {
      FreeStepQuiet(s, t, c);
    } else if ThreadOf(s, t).WritingKv? {
      WritingKvWrites(s, t, c);
    } else {
      HolderWritesNoKv(s, t, c);
      if s2.log != s.log {
        var line: Line :| !line.Kv? && s2.log == s.log + [line];
        KvLinesSnoc(s.log, line);
      }
    }
  }

  lemma WritingKvWrites(s: State, t: nat, c: Choice)
    requires |s.slots| == CAP && ThreadOf(s, t).WritingKv?
    ensures KvLines(Step(s, t, c).log) == KvLines(s.log) + (if s.isOpen then Due(s, t) else [])
  {
    hide KvLines;
    KvLinesSnoc(s.log, Kv(ThreadOf(s, t).key, ThreadOf(s, t).value));
  }

  /** The value lines of the log are the calls recorded, in the order of their turns. */
  lemma {:induction false} KvLinesAreRecorded(schedule: Schedule)
    ensures KvLines(Run(Init(), schedule).log) == RecordedKv(schedule)
    decreases |schedule|
  {
    hide Step, Due;
    if schedule == [] {
      assert [Header][..0] == [];
    } else {
      var before := schedule[..|schedule| - 1];
      var (t, c) := schedule[|schedule| - 1];
      KvLinesAreRecorded(before);
      StepWritesDue(Run(Init(), before), t, c);
    }
  }

  /** While the log is open no call has found it closed. */
  lemma {:induction false} OpenRefusesNone(schedule: Schedule)
    ensures Run(Init(), schedule).isOpen ==> RefusedKv(schedule) == []
    decreases |schedule|
  {
    hide Step, Due;
    if schedule != [] {
      var before := schedule[..|schedule| - 1];
      var (t, c) := schedule[|schedule| - 1];
      OpenRefusesNone(before);
      StepOpens(Run(Init(), before), t, c);
    }
  }

  ghost predicate NoKvInProgress(s: State) {
    forall t :: t in s.threads ==> Carrying(s.threads[t]) == None
  }

  /** With the log open and no call in progress every call begun has been recorded. */
  lemma AllRecorded(schedule: Schedule)
    requires Run(Init(), schedule).isOpen && NoKvInProgress(Run(Init(), schedule))
    ensures multiset(BegunKv(schedule)) == multiset(RecordedKv(schedule))
  {
    OpenRefusesNone(schedule);
    var s := Run(Init(), schedule);
    forall kv ensures multiset(BegunKv(schedule))[kv] == multiset(RecordedKv(schedule))[kv] {
      KvConserved(schedule, kv);
      assert CarryingOn(s.threads, kv) == {};
    }
  }

  // ----- what a reader finds -------------------------------------------------------------------

  /** The value last given for a key. */
  function LastValueOf(calls: seq<KvCall>, key: Key): Option<int> {
    if calls == [] then None
    else if calls[|calls| - 1].0 == key then Some(calls[|calls| - 1].1)
    else LastValueOf(calls[..|calls| - 1], key)
  }

  lemma LastValueIsLast(calls: seq<KvCall>, i: nat)
    requires i < |calls| && forall j :: i < j < |calls| ==> calls[j].0 != calls[i].0
    ensures LastValueOf(calls, calls[i].0) == Some(calls[i].1)
  {
    if i < |calls| - 1 { LastValueIsLast(calls[..|calls| - 1], i); }
  }

  lemma {:induction false} ReadIsLastValue(lines: seq<Line>, key: Key)
    ensures LastValueOf(KvLines(lines), key) ==
      if KeyText(key) in LastValues(lines) then Some(LastValues(lines)[KeyText(key)]) else None
    decreases |lines|
  {
    if lines != [] {
      var last := lines[|lines| - 1];
      var before := KvLines(lines[..|lines| - 1]);
      ReadIsLastValue(lines[..|lines| - 1], key);
      if last.Kv? {
        assert (before + [(last.key, last.value)])[..|before|] == before;
        if KeyText(last.key) == KeyText(key) { KeyTextInjective(last.key, key); }
      } else {
        assert before + [] == before;
      }
    }
  }

  lemma {:induction false} KvLinesPrefix(lines: seq<Line>, n: nat)
    requires n <= |lines|
    ensures KvLines(lines[..n]) <= KvLines(lines)
    decreases |lines|
  {
    if n < |lines| {
      var last := |lines| - 1;
      KvLinesPrefix(lines[..last], n);
      assert lines[..last][..n] == lines[..n];
    } else {
      assert lines[..n] == lines;
    }
  }
}
