/** The promises of the milestone table, over whole runs. */
module MilestoneRuns {
  import opened Common
  import opened Milestone
  import opened MilestoneProof

  ghost predicate ChoiceFits(c: Choice) {
    c.Call? ==> |c.key| <= KEY_ROOM
  }

  lemma BeginKeepsInv(s: State, t: nat, c: Choice)
    requires Inv(s) && ChoiceFits(c) && ThreadOf(s, t) == Idle
    ensures Inv(Begin(s, t, c))
  {
    match c
    case Call(key, tick) =>
      if key != [] { MoveKeepsInv(s, Begin(s, t, c), t, if tick then WantCheckpoint(key) else Scan(key, 0)); }
    case CallKv(key, value) =>
      if key != [] { MoveKeepsInv(s, Begin(s, t, c), t, WantKv(key, value)); }
    case CallDump => MoveKeepsInv(s, Begin(s, t, c), t, WantDump);
    case Go(_) =>
  }

  lemma AcquireKeepsInv(s: State, t: nat, th: Thread)
    requires Inv(s) && !Holds(ThreadOf(s, t)) && Holds(th) && ThreadOk(s, th) && !th.Written?
    requires forall key :: Counted(th, key) == Counted(ThreadOf(s, t), key)
    ensures Inv(Acquire(s, t, th))
  {
    if s.lock == None { MoveKeepsInv(s, Acquire(s, t, th), t, th); }
  }

  lemma ScanKeepsInv(s: State, t: nat, key: Key, i: nat)
    requires Inv(s) && ThreadOf(s, t) == Scan(key, i)
    ensures Inv(ScanStep(s, t, key, i))
  {
    assert ThreadOk(s, ThreadOf(s, t));
    var s2 := ScanStep(s, t, key, i);
    if i >= CAP {
      MoveKeepsInv(s, s2, t, WantInsert(key));
    } else {
      var at := Probe(Hash(key), i);
      if s.slots[at].state == 0 {
        MoveKeepsInv(s, s2, t, WantInsert(key));
      } else if s.slots[at].state == 2 && s.slots[at].key == key {
        MoveKeepsInv(s, s2, t, Hit(key, at));
      } else {
        MoveKeepsInv(s, s2, t, Scan(key, i + 1));
      }
    }
  }

  /** A lock holder that goes on holding it, or gives it up, without touching the table. */
  lemma HolderKeepsInv(s: State, s2: State, t: nat, th: Thread)
    requires Inv(s) && Holds(ThreadOf(s, t)) && !ThreadOf(s, t).Written? && !th.Written? && ThreadOk(s, th)
    requires s2.threads == s.threads[t := th]
    requires s2.slots == s.slots && s2.nextOrd == s.nextOrd && s2.order == s.order && s2.returned == s.returned
    requires s2.lock == if Holds(th) then s.lock else None
    requires forall key :: Counted(th, key) == Counted(ThreadOf(s, t), key)
    ensures Inv(s2)
  {
    assert Holds(ThreadOf(s, t)) <==> s.lock == Some(t);
    MoveKeepsInv(s, s2, t, th);
  }

  lemma StreamKeepsInv(s: State, t: nat, key: Key, at: nat)
    requires Inv(s) && ThreadOf(s, t) == Published(key, at)
    ensures Inv(StreamStep(s, t, key, at))
  {
    assert ThreadOk(s, ThreadOf(s, t));
    HolderKeepsInv(s, StreamStep(s, t, key, at), t,
                   if s.isOpen then Streamed(key) else Unlocking(ThenReturn(key, true)));
  }

  lemma MaybeCountsKeepsInv(s: State, t: nat, due: bool, next: Then)
    requires Inv(s) && ThenOk(s, next) && (next.ThenReturn? ==> next.counted)
    requires Holds(ThreadOf(s, t)) && !ThreadOf(s, t).Written?
    requires forall key :: Counted(Unlocking(next), key) == Counted(ThreadOf(s, t), key)
    ensures Inv(MaybeCounts(s, t, due, next))
  {
    HolderKeepsInv(s, MaybeCounts(s, t, due, next), t,
                   if s.isOpen && !s.dumped && due then Counting(1, next) else Unlocking(next));
  }

  lemma DumpKeepsInv(s: State, t: nat)
    requires Inv(s) && ThreadOf(s, t) == AtDump
    ensures Inv(DumpStep(s, t))
  {
    HolderKeepsInv(s, DumpStep(s, t), t,
                   if s.dumped || !s.isOpen then Unlocking(ThenIdle) else Counting(1, ThenEnd));
  }

  lemma CountKeepsInv(s: State, t: nat, ord: nat, next: Then)
    requires Inv(s) && ThreadOf(s, t) == Counting(ord, next)
    ensures Inv(CountStep(s, t, ord, next))
  {
    assert ThreadOk(s, ThreadOf(s, t));
    HolderKeepsInv(s, CountStep(s, t, ord, next), t,
                   if ord <= s.nextOrd && ord <= CAP then Counting(ord + 1, next)
                   else Unlocking(if next == ThenEnd then ThenIdle else next));
  }

  lemma UnlockKeepsInv(s: State, t: nat, next: Then)
    requires Inv(s) && ThreadOf(s, t) == Unlocking(next)
    ensures Inv(Unlock(s, t, next))
  {
    assert ThreadOk(s, ThreadOf(s, t));
    HolderKeepsInv(s, Unlock(s, t, next), t, After(next));
  }

  /** A full probe under the lock: the table is full and the key is not in it. */
  lemma PassedAllMeansFull(s: State, key: Key)
    requires Inv(s) && Passed(s.slots, key, CAP)
    ensures Full(s) && !HasSlot(s, key)
  {
    forall at | 0 <= at < CAP ensures s.slots[at].state == 2 && s.slots[at].key != key {
      ProbeDistance(key, at);
      var d := Distance(key, at);
      assert s.slots[Probe(Hash(key), d)].state == 2;
    }
  }

  lemma LockedScanKeepsInv(s: State, t: nat, key: Key, i: nat)
    requires Inv(s) && ThreadOf(s, t) == LockedScan(key, i)
    ensures Inv(LockedScanStep(s, t, key, i))
  {
    assert ThreadOk(s, ThreadOf(s, t));
    var s2 := LockedScanStep(s, t, key, i);
    if i >= CAP {
      PassedAllMeansFull(s, key);
      MoveKeepsInv(s, s2, t, Unlocking(ThenReturn(key, false)));
    } else {
      var at := Probe(Hash(key), i);
      assert SlotOk(s, at);
      if s.slots[at].state == 0 {
        ClaimKeepsInv(s, t, key, i);
      } else if s.slots[at].key == key {
        MoveKeepsInv(s, s2, t, LockedHit(key, at));
      } else {
        MoveKeepsInv(s, s2, t, LockedScan(key, i + 1));
      }
    }
  }

  lemma FreeStepKeepsInv(s: State, t: nat, c: Choice)
    requires Inv(s) && ChoiceFits(c) && !Holds(ThreadOf(s, t))
    ensures Inv(FreeStep(s, t, c))
  {
    assert ThreadOk(s, ThreadOf(s, t));
    match ThreadOf(s, t)
    case Idle => BeginKeepsInv(s, t, c);
    case WantCheckpoint(key) => AcquireKeepsInv(s, t, AtCheckpoint(key));
    case Scan(key, i) => ScanKeepsInv(s, t, key, i);
    case Hit(key, at) => BumpKeepsInv(s, t, key, at, Returning(key, true));
    case WantInsert(key) => AcquireKeepsInv(s, t, LockedScan(key, 0));
    case WantKv(key, value) => AcquireKeepsInv(s, t, WritingKv(key, value));
    case WantDump => AcquireKeepsInv(s, t, AtDump);
    case Returning(key, counted) => ReturnKeepsInv(s, t, key, counted);
  }

  lemma HolderStepKeepsInv(s: State, t: nat, c: Choice)
    requires Inv(s) && Holds(ThreadOf(s, t))
    ensures Inv(HolderStep(s, t, c))
  {
    assert ThreadOk(s, ThreadOf(s, t));
    match ThreadOf(s, t)
    case LockedScan(key, i) => LockedScanKeepsInv(s, t, key, i);
    case LockedHit(key, at) => BumpKeepsInv(s, t, key, at, Unlocking(ThenReturn(key, true)));
    case Written(key, at) => PublishKeepsInv(s, t, key, at);
    case Published(key, at) => StreamKeepsInv(s, t, key, at);
    case Streamed(key) => MaybeCountsKeepsInv(s, t, c == Go(true), ThenReturn(key, true));
    case AtCheckpoint(key) => MaybeCountsKeepsInv(s, t, c == Go(true), ThenScan(key));
    case WritingKv(key, value) => HolderKeepsInv(s, KvStep(s, t, key, value), t, Unlocking(ThenIdle));
    case AtDump => DumpKeepsInv(s, t);
    case Counting(ord, next) => CountKeepsInv(s, t, ord, next);
    case Unlocking(next) => UnlockKeepsInv(s, t, next);
  }

  /** Every step of every thread keeps the invariant. */
  lemma StepKeepsInv(s: State, t: nat, c: Choice)
    requires Inv(s) && ChoiceFits(c)
    ensures Inv(Step(s, t, c))
  {
    if Holds(ThreadOf(s, t)) { HolderStepKeepsInv(s, t, c); } else { FreeStepKeepsInv(s, t, c); }
  }

  lemma KeysFitBefore(schedule: Schedule, m: nat)
    requires KeysFit(schedule) && m <= |schedule|
    ensures KeysFit(schedule[..m])
  {
    forall k | 0 <= k < m && schedule[..m][k].1.Call? ensures |schedule[..m][k].1.key| <= KEY_ROOM {
      assert schedule[..m][k] == schedule[k];
    }
  }

  lemma {:induction false} RunInv(schedule: Schedule)
    requires KeysFit(schedule)
    ensures Inv(Run(Init(), schedule))
    decreases |schedule|
  {
    if schedule == [] {
      InitInv();
    } else {
      var before := schedule[..|schedule| - 1];
      KeysFitBefore(schedule, |schedule| - 1);
      RunInv(before);
      StepKeepsInv(Run(Init(), before), schedule[|schedule| - 1].0, schedule[|schedule| - 1].1);
    }
  }

  // ----- the table -----------------------------------------------------------

  lemma OrderBound(s: State)
    requires Inv(s)
    ensures s.nextOrd <= CAP
  {
    forall a, b | 0 <= a < b < |s.order| ensures s.order[a] != s.order[b] {
      assert s.slots[s.order[a]].ord == a + 1 && s.slots[s.order[b]].ord == b + 1;
    }
    NoRepeatsBound(s.order, CAP);
  }

  ghost predicate PublishedOrd(s: State, ord: nat) {
    exists at :: 0 <= at < |s.slots| && s.slots[at].state == 2 && s.slots[at].ord == ord
  }

  ghost predicate PublishedDistinct(s: State) {
    forall a, b :: 0 <= a < b < |s.slots| && s.slots[a].state == 2 && s.slots[b].state == 2 ==>
      s.slots[a].key != s.slots[b].key && s.slots[a].ord != s.slots[b].ord
  }

  /** The slot is on its key's probe path and nothing before it there is empty. */
  ghost predicate Reachable(s: State, at: nat)
    requires |s.slots| == CAP && at < CAP
  {
    exists i :: 0 <= i < CAP && Probe(Hash(s.slots[at].key), i) == at
                && forall j :: 0 <= j < i ==> s.slots[Probe(Hash(s.slots[at].key), j)].state == 2
  }

  lemma InvDistinct(s: State)
    requires Inv(s)
    ensures PublishedDistinct(s)
  {
    forall a, b | 0 <= a < b < |s.slots| && s.slots[a].state == 2 && s.slots[b].state == 2
      ensures s.slots[a].key != s.slots[b].key && s.slots[a].ord != s.slots[b].ord
    {
      assert SlotOk(s, a) && SlotOk(s, b);
    }
  }

  lemma InvReachable(s: State, at: nat)
    requires Inv(s) && at < CAP && s.slots[at].state == 2
    ensures Reachable(s, at)
  {
    assert SlotOk(s, at);
    ProbeDistance(s.slots[at].key, at);
    assert 0 <= Distance(s.slots[at].key, at) < CAP;
  }

  lemma InvOrdinals(s: State, ord: nat)
    requires Inv(s) && s.lock == None
    ensures PublishedOrd(s, ord) <==> 1 <= ord <= s.nextOrd
  {
    if PublishedOrd(s, ord) {
      var at :| 0 <= at < |s.slots| && s.slots[at].state == 2 && s.slots[at].ord == ord;
      assert SlotOk(s, at);
    }
    if 1 <= ord <= s.nextOrd {
      var at := s.order[ord - 1];
      assert s.slots[at].ord == ord && SlotOk(s, at);
    }
  }

  /** In every reachable state: published keys and ordinals are distinct, a published key
      can be reached along its probe path, and while nobody holds the lock the published
      ordinals are exactly 1 to the last one given out. */
  lemma TableShape(schedule: Schedule)
    requires KeysFit(schedule)
    ensures var s := Run(Init(), schedule);
      && s.nextOrd <= CAP
      && PublishedDistinct(s)
      && (forall at :: 0 <= at < CAP && s.slots[at].state == 2 ==> Reachable(s, at))
      && (s.lock == None ==> forall ord: nat :: PublishedOrd(s, ord) <==> 1 <= ord <= s.nextOrd)
  {
    RunInv(schedule);
    var s := Run(Init(), schedule);
    OrderBound(s);
    InvDistinct(s);
    forall at | 0 <= at < CAP && s.slots[at].state == 2 ensures Reachable(s, at) {
      InvReachable(s, at);
    }
    if s.lock == None {
      forall ord: nat ensures PublishedOrd(s, ord) <==> 1 <= ord <= s.nextOrd { InvOrdinals(s, ord); }
    }
  }

  /** What a step may do to a slot already published: count a call, nothing else. */
  ghost predicate Keeps(s: State, s2: State) {
    && |s.slots| == |s2.slots|
    && forall at :: 0 <= at < |s.slots| && s.slots[at].state == 2 ==>
         s2.slots[at].state == 2 && s2.slots[at].key == s.slots[at].key && s2.slots[at].ord == s.slots[at].ord
  }

  lemma StepKeepsPublished(s: State, t: nat, c: Choice)
    requires |s.slots| == CAP
    ensures Keeps(s, Step(s, t, c))
  {
    StepSize(s, t, c);
    if Holds(ThreadOf(s, t)) { HolderStepKeepsPublished(s, t, c); } else { FreeStepKeepsPublished(s, t, c); }
  }

  lemma FreeStepKeepsPublished(s: State, t: nat, c: Choice)
    requires |s.slots| == CAP && !Holds(ThreadOf(s, t))
    ensures Keeps(s, FreeStep(s, t, c))
  {
    if ThreadOf(s, t).Hit? {
      var th := ThreadOf(s, t);
      assert Keeps(s, HitStep(s, t, th.at, Returning(th.key, true)));
    } else {
      FreeStepLeavesSlots(s, t, c);
    }
  }

  lemma FreeStepLeavesSlots(s: State, t: nat, c: Choice)
    requires |s.slots| == CAP && !Holds(ThreadOf(s, t)) && !ThreadOf(s, t).Hit?
    ensures FreeStep(s, t, c).slots == s.slots
  {
  }

  lemma HolderStepKeepsPublished(s: State, t: nat, c: Choice)
    requires |s.slots| == CAP && Holds(ThreadOf(s, t))
    ensures Keeps(s, HolderStep(s, t, c))
  {
    match ThreadOf(s, t)
    case LockedScan(key, i) => assert Keeps(s, LockedScanStep(s, t, key, i));
    case LockedHit(key, at) => assert Keeps(s, HitStep(s, t, at, Unlocking(ThenReturn(key, true))));
    case Written(key, at) => assert Keeps(s, Publish(s, t, key, at));
    case _ => HolderStepLeavesSlots(s, t, c);
  }

  lemma HolderStepLeavesSlots(s: State, t: nat, c: Choice)
    requires |s.slots| == CAP && Holds(ThreadOf(s, t))
    requires !ThreadOf(s, t).LockedScan? && !ThreadOf(s, t).LockedHit? && !ThreadOf(s, t).Written?
    ensures HolderStep(s, t, c).slots == s.slots
  {
  }

  /** A published slot keeps its key and ordinal for the rest of any run. */
  lemma {:induction false} PublishedForGood(s: State, schedule: Schedule)
    requires |s.slots| == CAP
    ensures Keeps(s, Run(s, schedule))
    decreases |schedule|
  {
    if schedule != [] {
      var before := schedule[..|schedule| - 1];
      PublishedForGood(s, before);
      StepKeepsPublished(Run(s, before), schedule[|schedule| - 1].0, schedule[|schedule| - 1].1);
    }
  }

  // ----- every call is counted once -------------------------------------------

  /** The key whose ps3_ms call the thread is in the middle of. */
  function Serving(th: Thread): Option<Key> {
    match th
    case WantCheckpoint(key) => Some(key)
    case AtCheckpoint(key) => Some(key)
    case Scan(key, _) => Some(key)
    case Hit(key, _) => Some(key)
    case WantInsert(key) => Some(key)
    case LockedScan(key, _) => Some(key)
    case LockedHit(key, _) => Some(key)
    case Written(key, _) => Some(key)
    case Published(key, _) => Some(key)
    case Streamed(key) => Some(key)
    case Returning(key, _) => Some(key)
    case Counting(_, next) => ServingThen(next)
    case Unlocking(next) => ServingThen(next)
    case _ => None
  }

  function ServingThen(next: Then): Option<Key> {
    match next
    case ThenReturn(key, _) => Some(key)
    case ThenScan(key) => Some(key)
    case _ => None
  }

  function ServingOn(threads: map<nat, Thread>, key: Key): (ts: set<nat>)
    ensures forall t :: t in ts <==> t in threads && Serving(threads[t]) == Some(key)
  {
    set t | t in threads && Serving(threads[t]) == Some(key)
  }

  /** This choice of thread t starts a call on key. */
  predicate Begins(s: State, t: nat, c: Choice, key: Key) {
    ThreadOf(s, t) == Idle && c.Call? && c.key == key && key != []
  }

  /** How many calls on key a schedule starts. */
  function Begun(schedule: Schedule, key: Key): nat
    decreases |schedule|
  {
    if schedule == [] then 0
    else
      var before := schedule[..|schedule| - 1];
      var (t, c) := schedule[|schedule| - 1];
      Begun(before, key) + (if Begins(Run(Init(), before), t, c, key) then 1 else 0)
  }

  lemma ServingMove(threads: map<nat, Thread>, t: nat, th: Thread, key: Key)
    ensures |ServingOn(threads[t := th], key)| == |ServingOn(threads, key)|
      - (if t in threads && Serving(threads[t]) == Some(key) then 1 else 0) + (if Serving(th) == Some(key) then 1 else 0)
  {
    OthersServe(threads, t, th, key);
    WithoutOne(ServingOn(threads, key), t);
    WithoutOne(ServingOn(threads[t := th], key), t);
  }

  lemma OthersServe(threads: map<nat, Thread>, t: nat, th: Thread, key: Key)
    ensures ServingOn(threads, key) - {t} == ServingOn(threads[t := th], key) - {t}
    ensures t in ServingOn(threads[t := th], key) <==> Serving(th) == Some(key)
  {
    forall u | u != t ensures u in ServingOn(threads, key) <==> u in ServingOn(threads[t := th], key) {}
  }

  /** Nothing returned, and thread t, if it moved, serves the same call as before. */
  ghost predicate ServesOn(s: State, s2: State, t: nat) {
    && s2.returned == s.returned
    && (s2.threads == s.threads
        || (t in s.threads && s2.threads == s.threads[t := ThreadOf(s2, t)]
            && Serving(ThreadOf(s2, t)) == Serving(s.threads[t])))
  }

  /** Whom a thread serves changes only when its call begins or returns. */
  lemma StepServes(s: State, t: nat, c: Choice)
    requires |s.slots| == CAP && !ThreadOf(s, t).Idle? && !ThreadOf(s, t).Returning?
    ensures ServesOn(s, Step(s, t, c), t)
  {
    if Holds(ThreadOf(s, t)) { HolderStepServes(s, t, c); } else { FreeStepServes(s, t, c); }
  }

  lemma FreeStepServes(s: State, t: nat, c: Choice)
    requires |s.slots| == CAP && !Holds(ThreadOf(s, t)) && !ThreadOf(s, t).Idle? && !ThreadOf(s, t).Returning?
    ensures ServesOn(s, FreeStep(s, t, c), t)
  {
    hide Hash, Probe, Bucket;
  }

  lemma HolderStepServes(s: State, t: nat, c: Choice)
    requires |s.slots| == CAP && Holds(ThreadOf(s, t))
    ensures ServesOn(s, HolderStep(s, t, c), t)
  {
    match ThreadOf(s, t)
    case LockedScan(key, i) => LockedScanServes(s, t, key, i);
    case LockedHit(key, at) => HitServes(s, t, at, Unlocking(ThenReturn(key, true)));
    case Written(key, at) => PublishServes(s, t, key, at);
    case Published(key, at) => StreamServes(s, t, key, at);
    case Streamed(key) => MaybeCountsServes(s, t, c == Go(true), ThenReturn(key, true));
    case AtCheckpoint(key) => MaybeCountsServes(s, t, c == Go(true), ThenScan(key));
    case WritingKv(key, value) => KvServes(s, t, key, value);
    case AtDump => DumpServes(s, t);
    case Counting(ord, next) => CountServes(s, t, ord, next);
    case Unlocking(next) => UnlockServes(s, t, next);
  }

  lemma LockedScanServes(s: State, t: nat, key: Key, i: nat)
    requires |s.slots| == CAP && ThreadOf(s, t) == LockedScan(key, i)
    ensures ServesOn(s, LockedScanStep(s, t, key, i), t)
  {
  }

  lemma HitServes(s: State, t: nat, at: nat, next: Thread)
    requires |s.slots| == CAP && ThreadOf(s, t).LockedHit? && Serving(ThreadOf(s, t)) == Serving(next)
    ensures ServesOn(s, HitStep(s, t, at, next), t)
  {
  }

  lemma PublishServes(s: State, t: nat, key: Key, at: nat)
    requires |s.slots| == CAP && ThreadOf(s, t) == Written(key, at)
    ensures ServesOn(s, Publish(s, t, key, at), t)
  {
  }

  lemma StreamServes(s: State, t: nat, key: Key, at: nat)
    requires |s.slots| == CAP && ThreadOf(s, t) == Published(key, at)
    ensures ServesOn(s, StreamStep(s, t, key, at), t)
  {
  }

  lemma KvServes(s: State, t: nat, key: Key, value: int)
    requires ThreadOf(s, t) == WritingKv(key, value)
    ensures ServesOn(s, KvStep(s, t, key, value), t)
  {
  }

  lemma DumpServes(s: State, t: nat)
    requires ThreadOf(s, t) == AtDump
    ensures ServesOn(s, DumpStep(s, t), t)
  {
  }

  lemma CountServes(s: State, t: nat, ord: nat, next: Then)
    requires |s.slots| == CAP && ThreadOf(s, t) == Counting(ord, next)
    ensures ServesOn(s, CountStep(s, t, ord, next), t)
  {
  }

  lemma UnlockServes(s: State, t: nat, next: Then)
    requires ThreadOf(s, t) == Unlocking(next)
    ensures ServesOn(s, Unlock(s, t, next), t)
  {
  }

  lemma MaybeCountsServes(s: State, t: nat, due: bool, next: Then)
    requires Holds(ThreadOf(s, t)) && Serving(ThreadOf(s, t)) == ServingThen(next)
    ensures ServesOn(s, MaybeCounts(s, t, due, next), t)
  {
  }

  lemma BeginOrReturnServes(s: State, t: nat, c: Choice, key: Key)
    requires |s.slots| == CAP && (ThreadOf(s, t).Idle? || ThreadOf(s, t).Returning?)
    ensures var s2 := Step(s, t, c);
      s2.returned[key] + |ServingOn(s2.threads, key)|
        == s.returned[key] + |ServingOn(s.threads, key)| + (if Begins(s, t, c, key) then 1 else 0)
  {
    var s2 := Step(s, t, c);
    if s2 != s { ServingMove(s.threads, t, ThreadOf(s2, t), key); }
  }

  /** Calls begun are calls returned plus calls in progress, in every run. */
  lemma {:induction false} BegunReturnedOrServed(schedule: Schedule, key: Key)
    ensures var s := Run(Init(), schedule);
            Begun(schedule, key) == s.returned[key] + |ServingOn(s.threads, key)|
    decreases |schedule|
  {
    if schedule == [] {
      assert ServingOn(Init().threads, key) == {};
    } else {
      var before := schedule[..|schedule| - 1];
      var (t, c) := schedule[|schedule| - 1];
      BegunReturnedOrServed(before, key);
      var s := Run(Init(), before);
      if ThreadOf(s, t).Idle? || ThreadOf(s, t).Returning? {
        BeginOrReturnServes(s, t, c, key);
      } else {
        StepServes(s, t, c);
        var s2 := Step(s, t, c);
        if s2.threads != s.threads { ServingMove(s.threads, t, ThreadOf(s2, t), key); }
      }
    }
  }

  ghost predicate Quiet(s: State) {
    forall t :: t in s.threads ==> s.threads[t] == Idle
  }

  ghost predicate HasPublished(s: State, key: Key) {
    exists at :: 0 <= at < |s.slots| && s.slots[at].state == 2 && s.slots[at].key == key
  }

  lemma QuietTally(s: State, key: Key)
    requires Quiet(s)
    ensures Tally(s, key) == s.returned[key] && ServingOn(s.threads, key) == {}
  {
    assert CountedOn(s.threads, key) == {};
  }

  lemma QuietHits(s: State, key: Key, n: nat)
    requires Inv(s) && Tally(s, key) == s.returned[key] == n
    ensures forall at :: 0 <= at < CAP && s.slots[at].state == 2 && s.slots[at].key == key ==> s.slots[at].hits == n % WORD
    ensures n > 0 && !HasPublished(s, key) && s.lock == None ==> Full(s)
  {
    forall at | 0 <= at < CAP && s.slots[at].state == 2 ensures Claimed(s.slots[at]) {
      assert SlotOk(s, at);
    }
    if s.lock == None && HasSlot(s, key) {
      var at :| 0 <= at < CAP && Claimed(s.slots[at]) && s.slots[at].key == key;
      assert SlotOk(s, at);
    }
  }

  lemma QuietUnlocked(s: State)
    requires Inv(s) && Quiet(s)
    ensures s.lock == None
  {
    var holder := if s.lock.Some? then s.lock.value else 0;
    assert Holds(ThreadOf(s, holder)) <==> s.lock == Some(holder);
  }

  /** The thread has looked at every slot under the lock for the key, and gives it none. */
  predicate Dropping(th: Thread, key: Key) {
    || (th.LockedScan? && th.key == key && th.i >= CAP)
    || th == Unlocking(ThenReturn(key, false))
    || th == Returning(key, false)
  }

  lemma DroppingMeansFull(s: State, t: nat, key: Key)
    requires Inv(s) && Dropping(ThreadOf(s, t), key)
    ensures Full(s) && !HasSlot(s, key)
  {
    assert ThreadOk(s, ThreadOf(s, t));
    if ThreadOf(s, t).LockedScan? { PassedAllMeansFull(s, key); }
  }

  /** A slot that is claimed stays claimed for its key. */
  ghost predicate KeepsClaims(s: State, s2: State) {
    && |s.slots| == |s2.slots|
    && forall at :: 0 <= at < |s.slots| && Claimed(s.slots[at]) ==>
         Claimed(s2.slots[at]) && s2.slots[at].key == s.slots[at].key
  }

  lemma StepKeepsClaims(s: State, t: nat, c: Choice)
    requires Inv(s)
    ensures KeepsClaims(s, Step(s, t, c))
  {
    StepKeepsPublished(s, t, c);
    if Holds(ThreadOf(s, t)) && ThreadOf(s, t).Written? {
      var th := ThreadOf(s, t);
      assert KeepsClaims(s, Publish(s, t, th.key, th.at));
    } else if Holds(ThreadOf(s, t)) && ThreadOf(s, t).LockedScan? {
      var th := ThreadOf(s, t);
      assert ThreadOk(s, th);
      LockedScanKeepsClaims(s, t, th.key, th.i);
    } else {
      SlotsKeptOrBumped(s, t, c);
    }
  }

  lemma LockedScanKeepsClaims(s: State, t: nat, key: Key, i: nat)
    requires Inv(s) && ThreadOf(s, t) == LockedScan(key, i)
    ensures KeepsClaims(s, LockedScanStep(s, t, key, i))
  {
    var at := Probe(Hash(key), i);
    assert SlotOk(s, at);
    assert Holds(ThreadOf(s, t)) <==> s.lock == Some(t);
  }

  lemma SlotsKeptOrBumped(s: State, t: nat, c: Choice)
    requires |s.slots| == CAP && !ThreadOf(s, t).LockedScan? && !ThreadOf(s, t).Written?
    ensures KeepsClaims(s, Step(s, t, c))
  {
    var th := ThreadOf(s, t);
    if th.LockedHit? {
      assert KeepsClaims(s, HitStep(s, t, th.at, Unlocking(ThenReturn(th.key, true))));
    } else if th.Hit? {
      assert KeepsClaims(s, HitStep(s, t, th.at, Returning(th.key, true)));
    } else if Holds(th) {
      HolderStepLeavesSlots(s, t, c);
    } else {
      FreeStepLeavesSlots(s, t, c);
    }
  }

  lemma {:induction false} ClaimsAreKept(schedule: Schedule, m: nat)
    requires KeysFit(schedule) && m <= |schedule|
    ensures KeepsClaims(Run(Init(), schedule[..m]), Run(Init(), schedule))
    decreases |schedule|
  {
    hide Step;
    if m == |schedule| {
      assert schedule[..m] == schedule;
    } else {
      var before := schedule[..|schedule| - 1];
      KeysFitBefore(schedule, |schedule| - 1);
      RunInv(before);
      ClaimsAreKept(before, m);
      assert before[..m] == schedule[..m];
      StepKeepsClaims(Run(Init(), before), schedule[|schedule| - 1].0, schedule[|schedule| - 1].1);
    }
  }

  /** In the state after m steps: a call on the key that is being turned away finds the
      table full and its key absent, and so does any call that has returned if the key has
      no slot. */
  ghost predicate DroppedOnlyWhenFull(schedule: Schedule, m: nat, key: Key)
    requires m <= |schedule|
  {
    var s := Run(Init(), schedule[..m]);
    && ((exists t: nat {:trigger ThreadOf(s, t)} :: Dropping(ThreadOf(s, t), key)) ==> Full(s) && !HasSlot(s, key))
    && (s.returned[key] > 0 && !HasSlot(Run(Init(), schedule), key) ==> Full(s))
  }

  lemma DropsFindItFull(schedule: Schedule, m: nat, key: Key)
    requires KeysFit(schedule) && m <= |schedule|
    ensures DroppedOnlyWhenFull(schedule, m, key)
  {
    var s, end := Run(Init(), schedule[..m]), Run(Init(), schedule);
    KeysFitBefore(schedule, m);
    RunInv(schedule[..m]);
    if t: nat :| Dropping(ThreadOf(s, t), key) { DroppingMeansFull(s, t, key); }
    if s.returned[key] > 0 && !HasSlot(end, key) {
      ClaimsAreKept(schedule, m);
      assert !HasSlot(s, key);
    }
  }

  /** With no call in progress, the count of a key's slot is the number of calls made on it
      (in a 32-bit word). A key called without getting a slot was turned away by a full
      table, from the first of its calls on: in every earlier state in which one of its
      calls had returned or was being turned away the table was already full. */
  lemma EveryCallCountedOnce(schedule: Schedule, key: Key)
    requires KeysFit(schedule) && Quiet(Run(Init(), schedule))
    ensures var s := Run(Init(), schedule);
      && (forall at :: 0 <= at < CAP && s.slots[at].state == 2 && s.slots[at].key == key ==>
            s.slots[at].hits == Begun(schedule, key) % WORD)
      && (Begun(schedule, key) > 0 && !HasPublished(s, key) ==> Full(s) && !HasSlot(s, key))
    ensures forall m :: 0 <= m <= |schedule| ==> DroppedOnlyWhenFull(schedule, m, key)
  {
    hide DroppedOnlyWhenFull;
    var s := Run(Init(), schedule);
    RunInv(schedule);
    BegunReturnedOrServed(schedule, key);
    QuietTally(s, key);
    QuietUnlocked(s);
    QuietHits(s, key, Begun(schedule, key));
    forall m | 0 <= m <= |schedule| ensures DroppedOnlyWhenFull(schedule, m, key) {
      DropsFindItFull(schedule, m, key);
    }
    if HasSlot(s, key) && !HasPublished(s, key) {
      var at :| 0 <= at < CAP && Claimed(s.slots[at]) && s.slots[at].key == key;
      assert SlotOk(s, at);
    }
  }

  /** Once the table is full no key gains a slot, so a dropped key stays dropped. */
  lemma FullStaysFull(s: State, schedule: Schedule, key: Key)
    requires Inv(s) && Full(s)
    ensures Full(Run(s, schedule)) && HasSlot(Run(s, schedule), key) == HasSlot(s, key)
  {
    PublishedForGood(s, schedule);
    var s2 := Run(s, schedule);
    forall at | 0 <= at < CAP ensures Claimed(s2.slots[at]) && Claimed(s.slots[at]) && s2.slots[at].key == s.slots[at].key {
      assert SlotOk(s, at);
    }
    if HasSlot(s, key) {
      var at :| 0 <= at < CAP && Claimed(s.slots[at]) && s.slots[at].key == key;
      assert s2.slots[at].key == key;
    }
  }
}
