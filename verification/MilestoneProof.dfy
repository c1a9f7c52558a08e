/** What holds in every state of every run, whatever the interleaving. */
module MilestoneProof {
  import opened Common
  import opened Milestone

  ghost predicate KeyOk(key: Key) {
    0 < |key| <= KEY_ROOM
  }

  lemma XorStep(a: nat, b: nat, width: nat, rest: nat)
    requires width > 0 && XorBits(a / 2, b / 2, width - 1) == rest
    ensures XorBits(a, b, width) == 2 * rest + (if a % 2 == b % 2 then 0 else 1)
  {
  }

  lemma XorOfA()
    ensures XorBits(197, 97, 8) == 164
  {
    hide XorBits;
    assert XorBits(0, 0, 0) == 0 by { XorNone(); }
    XorStep(1, 0, 1, 0);
    XorStep(3, 1, 2, 1);
    XorStep(6, 3, 3, 2);
    XorStep(12, 6, 4, 5);
    XorStep(24, 12, 5, 10);
    XorStep(49, 24, 6, 20);
    XorStep(98, 48, 7, 41);
    XorStep(197, 97, 8, 82);
  }

  lemma XorNone()
    ensures XorBits(0, 0, 0) == 0
  {
  }

  /** The published value of the 32-bit FNV-1a hash of "a". */
  lemma HashVector()
    ensures Hash([97]) == 0xE40C292C
  {
    XorOfA();
    hide XorBits;
    assert [97][1..] == [];
    assert HashFrom(2166136261, [97]) == HashFrom((2166136261 - 197 + 164) * 16777619 % WORD, []);
  }

  /** How far along its probe path a slot is for a key. */
  function Distance(key: Key, at: nat): (i: nat)
    requires at < CAP
    ensures i < CAP
  {
    (at + CAP - Hash(key) % CAP) % CAP
  }

  /** The masked 32-bit sum is the sum around the table. */
  lemma ProbeAround(hash: nat, i: nat)
    ensures Probe(hash, i) == (hash % CAP + i) % CAP
  {
    var x := hash + i;
    assert x % WORD == x - (x / WORD) * WORD;
    assert (x / WORD) * WORD == CAP * ((x / WORD) * 2097152);
    SameRemainder(x % WORD, x, (x / WORD) * 2097152);
    SameRemainder(hash % CAP + i, x, hash / CAP);
  }

  lemma SameRemainder(a: nat, b: nat, q: nat)
    requires a + CAP * q == b
    ensures a % CAP == b % CAP
  {
  }

  lemma Around(home: nat, at: nat, i: nat)
    requires home < CAP && at < CAP && i < CAP
    ensures (home + i) % CAP == at <==> i == (at + CAP - home) % CAP
  {
  }

  lemma ProbeDistance(key: Key, at: nat)
    requires at < CAP
    ensures Probe(Hash(key), Distance(key, at)) == at
  {
    var home := Hash(key) % CAP;
    ProbeAround(Hash(key), Distance(key, at));
    Around(home, at, Distance(key, at));
  }

  lemma DistanceProbe(key: Key, i: nat)
    requires i < CAP
    ensures Distance(key, Probe(Hash(key), i)) == i
  {
    var home := Hash(key) % CAP;
    ProbeAround(Hash(key), i);
    Around(home, Probe(Hash(key), i), i);
  }

  /** A slot has been given to a key, published or not. */
  predicate Claimed(slot: Slot) {
    slot.ord > 0
  }

  /** No slot before this one on the key's probe path is empty. */
  ghost predicate PathFilled(slots: seq<Slot>, key: Key, at: nat)
    requires |slots| == CAP && at < CAP
  {
    forall j :: 0 <= j < Distance(key, at) ==> slots[Probe(Hash(key), j)].state == 2
  }

  /** The first i slots of the key's probe path are published and hold other keys. */
  ghost predicate Passed(slots: seq<Slot>, key: Key, i: nat)
    requires |slots| == CAP
  {
    forall j :: 0 <= j < i ==>
      slots[Probe(Hash(key), j)].state == 2 && slots[Probe(Hash(key), j)].key != key
  }

  ghost predicate HasSlot(s: State, key: Key) {
    exists at :: 0 <= at < |s.slots| && Claimed(s.slots[at]) && s.slots[at].key == key
  }

  ghost predicate Full(s: State) {
    forall at :: 0 <= at < |s.slots| ==> s.slots[at].state == 2
  }

  ghost predicate SlotOk(s: State, at: nat)
    requires |s.slots| == CAP && |s.order| == s.nextOrd && at < CAP
  {
    var slot := s.slots[at];
    && (slot.state == 0 || slot.state == 2)
    && (slot.state == 2 ==> Claimed(slot))
    && (Claimed(slot) ==>
          && KeyOk(slot.key) && PathFilled(s.slots, slot.key, at)
          && slot.ord <= s.nextOrd && s.order[slot.ord - 1] == at)
    && (Claimed(slot) && slot.state == 0 ==>
          s.lock.Some? && ThreadOf(s, s.lock.value) == Written(slot.key, at))
  }

  ghost predicate OrderOk(s: State)
    requires |s.slots| == CAP
  {
    && |s.order| == s.nextOrd
    && forall o :: 0 <= o < |s.order| ==> s.order[o] < CAP && s.slots[s.order[o]].ord == o + 1
  }

  ghost predicate Unique(s: State) {
    forall a, b :: 0 <= a < b < |s.slots| && Claimed(s.slots[a]) && Claimed(s.slots[b]) ==>
      s.slots[a].key != s.slots[b].key
  }

  ghost predicate LockOk(s: State) {
    forall t: nat {:trigger ThreadOf(s, t)} :: Holds(ThreadOf(s, t)) <==> s.lock == Some(t)
  }

  ghost predicate ThenOk(s: State, next: Then) {
    match next
    case ThenReturn(key, counted) => KeyOk(key) && (!counted ==> Full(s) && !HasSlot(s, key))
    case ThenScan(key) => KeyOk(key)
    case _ => true
  }

  ghost predicate PublishedAs(s: State, key: Key, at: nat) {
    at < |s.slots| && s.slots[at].state == 2 && s.slots[at].key == key
  }

  ghost predicate ThreadOk(s: State, th: Thread)
    requires |s.slots| == CAP
  {
    match th
    case WantCheckpoint(key) => KeyOk(key)
    case AtCheckpoint(key) => KeyOk(key)
    case Scan(key, i) => KeyOk(key)
    case WantInsert(key) => KeyOk(key)
    case Hit(key, at) => KeyOk(key) && PublishedAs(s, key, at)
    case LockedHit(key, at) => KeyOk(key) && PublishedAs(s, key, at)
    case LockedScan(key, i) => KeyOk(key) && i <= CAP && Passed(s.slots, key, i)
    case Written(key, at) =>
      KeyOk(key) && at < CAP && s.slots[at].state == 0 && s.slots[at].key == key && s.slots[at].ord == s.nextOrd > 0
    case Published(key, at) => KeyOk(key) && PublishedAs(s, key, at) && s.slots[at].ord == s.nextOrd
    case Streamed(key) => KeyOk(key)
    case Counting(_, next) => ThenOk(s, next) && (next.ThenReturn? ==> next.counted)
    case Unlocking(next) => ThenOk(s, next)
    case Returning(key, counted) => ThenOk(s, ThenReturn(key, counted))
    case _ => true
  }

  /** The thread has counted its call on key and has not returned yet. */
  predicate Counted(th: Thread, key: Key) {
    match th
    case Written(k, _) => k == key
    case Published(k, _) => k == key
    case Streamed(k) => k == key
    case Counting(_, next) => next == ThenReturn(key, true)
    case Unlocking(next) => next == ThenReturn(key, true)
    case Returning(k, counted) => k == key && counted
    case _ => false
  }

  function CountedOn(threads: map<nat, Thread>, key: Key): (ts: set<nat>)
    ensures forall t :: t in ts <==> t in threads && Counted(threads[t], key)
  {
    set t | t in threads && Counted(threads[t], key)
  }

  function InFlight(s: State, key: Key): nat {
    |CountedOn(s.threads, key)|
  }

  /** Calls on key that have been counted, returned or about to. */
  function Tally(s: State, key: Key): nat {
    s.returned[key] + InFlight(s, key)
  }

  ghost predicate HitsOk(s: State) {
    forall at :: 0 <= at < |s.slots| && Claimed(s.slots[at]) ==>
      s.slots[at].hits == Tally(s, s.slots[at].key) % WORD
  }

  ghost predicate NoSlotOk(s: State) {
    forall key :: !HasSlot(s, key) ==> InFlight(s, key) == 0 && (s.returned[key] > 0 ==> Full(s))
  }

  /** The part of the invariant that is about counts. */
  ghost predicate CountsOk(s: State) {
    |s.slots| == CAP && Unique(s) && HitsOk(s) && NoSlotOk(s)
  }

  ghost predicate SlotsOk(s: State)
    requires |s.slots| == CAP && |s.order| == s.nextOrd
  {
    forall at {:trigger SlotOk(s, at)} :: 0 <= at < CAP ==> SlotOk(s, at)
  }

  ghost predicate ThreadsOk(s: State)
    requires |s.slots| == CAP
  {
    forall t: nat {:trigger ThreadOk(s, ThreadOf(s, t))} :: ThreadOk(s, ThreadOf(s, t))
  }

  ghost predicate Inv(s: State) {
    && |s.slots| == CAP
    && OrderOk(s)
    && SlotsOk(s)
    && Unique(s)
    && LockOk(s)
    && ThreadsOk(s)
    && HitsOk(s)
    && NoSlotOk(s)
  }

  lemma InitInv()
    ensures Inv(Init())
  {
    var s := Init();
    forall key ensures InFlight(s, key) == 0 {
      assert CountedOn(s.threads, key) == {};
    }
  }

  lemma InFlightMove(s: State, s2: State, t: nat, th: Thread, key: Key)
    requires s2.threads == s.threads[t := th]
    ensures InFlight(s2, key) == InFlight(s, key)
              - (if Counted(ThreadOf(s, t), key) then 1 else 0) + (if Counted(th, key) then 1 else 0)
  {
    OthersSame(s.threads, t, th, key);
    WithoutOne(CountedOn(s.threads, key), t);
    WithoutOne(CountedOn(s2.threads, key), t);
  }

  lemma OthersSame(threads: map<nat, Thread>, t: nat, th: Thread, key: Key)
    ensures CountedOn(threads, key) - {t} == CountedOn(threads[t := th], key) - {t}
    ensures t in CountedOn(threads[t := th], key) <==> Counted(th, key)
  {
  }

  lemma WithoutOne(a: set<nat>, t: nat)
    ensures |a| == |a - {t}| + (if t in a then 1 else 0)
  {
    if t in a { assert a == (a - {t}) + {t}; } else { assert a == a - {t}; }
  }

  /** A step that only moves thread t, takes or gives up the lock, or writes to the log. */
  ghost predicate OnlyMoves(s: State, s2: State, t: nat, th: Thread) {
    && s2.threads == s.threads[t := th]
    && s2.slots == s.slots && s2.nextOrd == s.nextOrd && s2.order == s.order && s2.returned == s.returned
    && LockMoves(s, s2, t, th)
  }

  ghost predicate LockMoves(s: State, s2: State, t: nat, th: Thread) {
    || (s2.lock == s.lock && (Holds(th) <==> Holds(ThreadOf(s, t))))
    || (s.lock == None && s2.lock == Some(t) && Holds(th))
    || (s.lock == Some(t) && s2.lock == None && !Holds(th))
  }

  lemma LockKept(s: State, s2: State, t: nat, th: Thread)
    requires LockOk(s) && s2.threads == s.threads[t := th] && LockMoves(s, s2, t, th)
    ensures LockOk(s2)
  {
    forall u: nat ensures Holds(ThreadOf(s2, u)) <==> s2.lock == Some(u) {
      assert Holds(ThreadOf(s, u)) <==> s.lock == Some(u);
      assert Holds(ThreadOf(s, t)) <==> s.lock == Some(t);
      assert ThreadOf(s2, u) == if u == t then th else ThreadOf(s, u);
    }
  }

  lemma SameThreadOk(s: State, s2: State, th: Thread)
    requires |s.slots| == CAP && s2.slots == s.slots && s2.nextOrd == s.nextOrd
    ensures ThreadOk(s2, th) == ThreadOk(s, th)
  {
    assert Full(s2) == Full(s);
    assert forall key :: HasSlot(s2, key) == HasSlot(s, key);
  }

  lemma MoveKeepsSlots(s: State, s2: State, t: nat, th: Thread, at: nat)
    requires Inv(s) && OnlyMoves(s, s2, t, th) && at < CAP
    requires !th.Written? && !ThreadOf(s, t).Written?
    ensures SlotOk(s2, at)
  {
    assert SlotOk(s, at);
    assert PathFilled(s2.slots, s2.slots[at].key, at) == PathFilled(s.slots, s.slots[at].key, at);
    if s.lock.Some? && s.lock.value == t {
    } else if s.lock.Some? {
      assert ThreadOf(s2, s.lock.value) == ThreadOf(s, s.lock.value);
    }
  }

  lemma MoveKeepsCounts(s: State, s2: State, t: nat, th: Thread)
    requires CountsOk(s) && OnlyMoves(s, s2, t, th)
    requires forall key :: Counted(th, key) == Counted(ThreadOf(s, t), key)
    ensures HitsOk(s2) && NoSlotOk(s2)
  {
    forall key ensures InFlight(s2, key) == InFlight(s, key) {
      InFlightMove(s, s2, t, th, key);
    }
    SameTable(s, s2);
  }

  lemma SameTable(s: State, s2: State)
    requires HitsOk(s) && NoSlotOk(s) && s2.slots == s.slots && s2.returned == s.returned
    requires forall key :: InFlight(s2, key) == InFlight(s, key)
    ensures HitsOk(s2) && NoSlotOk(s2)
  {
    assert Full(s2) == Full(s);
    assert forall key :: HasSlot(s2, key) == HasSlot(s, key);
    assert forall key :: Tally(s2, key) == Tally(s, key);
  }

  lemma MoveKeepsInv(s: State, s2: State, t: nat, th: Thread)
    requires Inv(s) && OnlyMoves(s, s2, t, th)
    requires ThreadOk(s, th) && !th.Written? && !ThreadOf(s, t).Written?
    requires forall key :: Counted(th, key) == Counted(ThreadOf(s, t), key)
    ensures Inv(s2)
  {
    MoveKeepsCounts(s, s2, t, th);
    LockKept(s, s2, t, th);
    forall u: nat ensures ThreadOk(s2, ThreadOf(s2, u)) {
      assert ThreadOk(s, ThreadOf(s, u));
      SameThreadOk(s, s2, ThreadOf(s2, u));
    }
    forall at | 0 <= at < CAP ensures SlotOk(s2, at) {
      MoveKeepsSlots(s, s2, t, th, at);
    }
  }

  // ----- the steps that touch the table --------------------------------------

  lemma CountedMeansInFlight(s: State, t: nat, key: Key)
    requires Counted(ThreadOf(s, t), key)
    ensures InFlight(s, key) > 0
  {
    assert t in CountedOn(s.threads, key);
  }

  /** Counting a call adds one to its slot and makes the call counted. */
  lemma BumpKeepsInv(s: State, t: nat, key: Key, at: nat, next: Thread)
    requires Inv(s) && Counts(s, t, key, at, next)
    ensures Inv(HitStep(s, t, at, next))
  {
    hide Probe, Hash, HitsOk, NoSlotOk;
    var s2 := HitStep(s, t, at, next);
    assert ThreadOk(s, ThreadOf(s, t));
    LockKept(s, s2, t, next);
    BumpKeepsSlots(s, s2, t, next, at);
    BumpKeepsThreads(s, s2, t, next, at);
    assert SlotOk(s, at);
    BumpKeepsCounts(s, s2, t, key, next, at);
    BumpFrame(s, s2, at);
  }

  ghost predicate Counts(s: State, t: nat, key: Key, at: nat, next: Thread) {
    || (ThreadOf(s, t) == Hit(key, at) && next == Returning(key, true))
    || (ThreadOf(s, t) == LockedHit(key, at) && next == Unlocking(ThenReturn(key, true)))
  }

  lemma BumpKeepsSlots(s: State, s2: State, t: nat, next: Thread, at: nat)
    requires Inv(s) && Bumped(s, s2, at)
    requires s2.threads == s.threads[t := next] && s2.lock == s.lock && !ThreadOf(s, t).Written?
    ensures SlotsOk(s2)
  {
    forall a | 0 <= a < CAP ensures SlotOk(s2, a) {
      assert SlotOk(s, a);
      BumpSlotOk(s, s2, t, next, at, a);
    }
  }

  lemma BumpKeepsThreads(s: State, s2: State, t: nat, next: Thread, at: nat)
    requires Inv(s) && Bumped(s, s2, at) && s2.threads == s.threads[t := next] && ThreadOk(s, next)
    ensures ThreadsOk(s2)
  {
    forall u: nat ensures ThreadOk(s2, ThreadOf(s2, u)) {
      assert ThreadOk(s, ThreadOf(s, u));
      BumpThreadOk(s, s2, at, ThreadOf(s2, u));
    }
  }

  lemma BumpKeepsCounts(s: State, s2: State, t: nat, key: Key, next: Thread, at: nat)
    requires CountsOk(s) && Bumped(s, s2, at) && s2.threads == s.threads[t := next]
    requires Counts(s, t, key, at, next) && PublishedAs(s, key, at) && Claimed(s.slots[at])
    ensures HitsOk(s2) && NoSlotOk(s2)
  {
    forall k ensures InFlight(s2, k) == InFlight(s, k) + (if k == key then 1 else 0) {
      InFlightMove(s, s2, t, next, k);
    }
    BumpFrame(s, s2, at);
    assert HasSlot(s, key);
    MoreOnSlottedKey(s, s2, key);
    BumpKeepsHits(s, s2, key, at);
  }

  /** Counting a call on a key that has a slot says nothing about the keys that have none. */
  lemma MoreOnSlottedKey(s: State, s2: State, key: Key)
    requires NoSlotOk(s) && s2.returned == s.returned && HasSlot(s2, key)
    requires Full(s) ==> Full(s2)
    requires forall k :: HasSlot(s, k) ==> HasSlot(s2, k)
    requires forall k :: k != key ==> InFlight(s2, k) == InFlight(s, k)
    ensures NoSlotOk(s2)
  {
  }

  lemma BumpKeepsHits(s: State, s2: State, key: Key, at: nat)
    requires Unique(s) && HitsOk(s) && Bumped(s, s2, at) && Claimed(s.slots[at]) && s.slots[at].key == key
    requires forall k :: InFlight(s2, k) == InFlight(s, k) + (if k == key then 1 else 0)
    ensures HitsOk(s2)
  {
    forall a | 0 <= a < CAP && Claimed(s2.slots[a])
      ensures s2.slots[a].hits == Tally(s2, s2.slots[a].key) % WORD
    {
      assert s.slots[a].hits == Tally(s, s.slots[a].key) % WORD;
      NextHit(Tally(s, key));
      if a != at { assert s.slots[a].key != key; }
    }
  }

  lemma NextHit(n: nat)
    ensures (n % WORD + 1) % WORD == (n + 1) % WORD
  {
  }

  ghost predicate Bumped(s: State, s2: State, at: nat) {
    && |s.slots| == CAP && at < CAP
    && s2.slots == s.slots[at := s.slots[at].(hits := (s.slots[at].hits + 1) % WORD)]
    && s2.nextOrd == s.nextOrd && s2.order == s.order && s2.returned == s.returned
  }

  lemma BumpFrame(s: State, s2: State, at: nat)
    requires Bumped(s, s2, at)
    ensures Full(s2) == Full(s)
    ensures forall key :: HasSlot(s2, key) == HasSlot(s, key)
  {
    assert forall a :: 0 <= a < CAP ==> s2.slots[a].state == s.slots[a].state
                                        && s2.slots[a].key == s.slots[a].key && s2.slots[a].ord == s.slots[a].ord;
  }

  lemma BumpThreadOk(s: State, s2: State, at: nat, th: Thread)
    requires Bumped(s, s2, at) && ThreadOk(s, th)
    ensures ThreadOk(s2, th)
  {
    BumpFrame(s, s2, at);
  }

  lemma BumpSlotOk(s: State, s2: State, t: nat, next: Thread, at: nat, a: nat)
    requires Bumped(s, s2, at) && a < CAP && |s.order| == s.nextOrd && SlotOk(s, a)
    requires s2.threads == s.threads[t := next] && s2.lock == s.lock && !ThreadOf(s, t).Written?
    ensures SlotOk(s2, a)
  {
    assert PathFilled(s2.slots, s.slots[a].key, a) == PathFilled(s.slots, s.slots[a].key, a);
  }

  /** An empty slot reached under the lock after passing i others: the key is nowhere. */
  lemma EmptyMeansAbsent(s: State, t: nat, key: Key, i: nat)
    requires Inv(s) && ThreadOf(s, t) == LockedScan(key, i) && i < CAP
    requires s.slots[Probe(Hash(key), i)].state == 0
    ensures !Claimed(s.slots[Probe(Hash(key), i)])
    ensures !HasSlot(s, key) && InFlight(s, key) == 0 && s.returned[key] == 0
  {
    var at := Probe(Hash(key), i);
    assert ThreadOk(s, ThreadOf(s, t));
    assert Holds(ThreadOf(s, t)) <==> s.lock == Some(t);
    assert SlotOk(s, at);
    forall b | 0 <= b < CAP && Claimed(s.slots[b]) ensures s.slots[b].key != key {
      assert SlotOk(s, b);
      if s.slots[b].key == key { PassedAnother(s.slots, key, i, b); }
    }
  }

  lemma PassedAnother(slots: seq<Slot>, key: Key, i: nat, b: nat)
    requires |slots| == CAP && i < CAP && b < CAP
    requires Passed(slots, key, i) && slots[Probe(Hash(key), i)].state == 0
    requires PathFilled(slots, key, b) && b != Probe(Hash(key), i)
    ensures slots[b].key != key
  {
    ProbeDistance(key, b);
    var d := Distance(key, b);
    var empty, own := slots[Probe(Hash(key), i)], slots[Probe(Hash(key), d)];
    assert i < d ==> empty.state == 2;
    assert d < i ==> own.key != key;
  }

  lemma ClaimKeepsInv(s: State, t: nat, key: Key, i: nat)
    requires Inv(s) && ThreadOf(s, t) == LockedScan(key, i) && i < CAP
    requires s.slots[Probe(Hash(key), i)].state == 0
    ensures Inv(Claim(s, t, key, Probe(Hash(key), i)))
  {
    var at := Probe(Hash(key), i);
    var s2 := Claim(s, t, key, at);
    assert ThreadOk(s, ThreadOf(s, t));
    assert Holds(ThreadOf(s, t)) <==> s.lock == Some(t);
    EmptyMeansAbsent(s, t, key, i);
    DistanceProbe(key, i);
    LockKept(s, s2, t, Written(key, at));
    ClaimKeepsSlots(s, s2, t, key, at);
    ClaimKeepsThreads(s, s2, t, key, at);
    ClaimKeepsCounts(s, s2, t, key, at);
    ClaimKeepsOrder(s, s2, key, at);
  }

  lemma ClaimKeepsOrder(s: State, s2: State, key: Key, at: nat)
    requires Inv(s) && ClaimedBy(s, s2, key, at) && !HasSlot(s, key)
    ensures OrderOk(s2) && Unique(s2)
  {
    forall o | 0 <= o < |s2.order| ensures s2.order[o] < CAP && s2.slots[s2.order[o]].ord == o + 1 {
      if o < |s.order| { assert s.slots[s.order[o]].ord == o + 1; }
    }
    assert forall a :: 0 <= a < CAP && Claimed(s.slots[a]) ==> s.slots[a].key != key;
  }

  lemma ClaimKeepsSlots(s: State, s2: State, t: nat, key: Key, at: nat)
    requires Inv(s) && ClaimedBy(s, s2, key, at) && KeyOk(key) && PathFilled(s.slots, key, at)
    requires s2.threads == s.threads[t := Written(key, at)] && s2.lock == s.lock == Some(t)
    requires !ThreadOf(s, t).Written?
    ensures SlotsOk(s2)
  {
    forall a | 0 <= a < CAP ensures SlotOk(s2, a) {
      assert SlotOk(s, a);
      ClaimSlotOk(s, s2, t, key, at, a);
    }
  }

  lemma ClaimKeepsThreads(s: State, s2: State, t: nat, key: Key, at: nat)
    requires Inv(s) && ClaimedBy(s, s2, key, at) && KeyOk(key) && s.lock == Some(t)
    requires s2.threads == s.threads[t := Written(key, at)]
    ensures ThreadsOk(s2)
  {
    forall u: nat ensures ThreadOk(s2, ThreadOf(s2, u)) {
      if u != t {
        assert ThreadOk(s, ThreadOf(s, u));
        assert Holds(ThreadOf(s, u)) <==> s.lock == Some(u);
        ClaimThreadOk(s, s2, key, at, ThreadOf(s, u));
      }
    }
  }

  lemma ClaimKeepsCounts(s: State, s2: State, t: nat, key: Key, at: nat)
    requires CountsOk(s) && ClaimedBy(s, s2, key, at) && s2.threads == s.threads[t := Written(key, at)]
    requires ThreadOf(s, t).LockedScan?
    requires !HasSlot(s, key) && InFlight(s, key) == 0 && s.returned[key] == 0
    ensures HitsOk(s2) && NoSlotOk(s2)
  {
    forall k ensures InFlight(s2, k) == InFlight(s, k) + (if k == key then 1 else 0) {
      InFlightMove(s, s2, t, Written(key, at), k);
    }
    ClaimFrame(s, s2, key, at);
    MoreOnSlottedKey(s, s2, key);
    ClaimKeepsHits(s, s2, key, at);
  }

  lemma ClaimKeepsHits(s: State, s2: State, key: Key, at: nat)
    requires HitsOk(s) && ClaimedBy(s, s2, key, at) && !HasSlot(s, key) && InFlight(s, key) == s.returned[key] == 0
    requires forall k :: InFlight(s2, k) == InFlight(s, k) + (if k == key then 1 else 0)
    ensures HitsOk(s2)
  {
    forall a | 0 <= a < CAP && Claimed(s2.slots[a])
      ensures s2.slots[a].hits == Tally(s2, s2.slots[a].key) % WORD
    {
      if a != at {
        assert s.slots[a].hits == Tally(s, s.slots[a].key) % WORD;
        assert s.slots[a].key != key;
      }
    }
  }

  ghost predicate ClaimedBy(s: State, s2: State, key: Key, at: nat) {
    && |s.slots| == CAP && at < CAP && s.slots[at].state == 0 && !Claimed(s.slots[at]) && |s.order| == s.nextOrd
    && s2.slots == s.slots[at := Slot(0, s.nextOrd + 1, 1, key)]
    && s2.nextOrd == s.nextOrd + 1 && s2.order == s.order + [at] && s2.returned == s.returned
  }

  lemma ClaimFrame(s: State, s2: State, key: Key, at: nat)
    requires ClaimedBy(s, s2, key, at)
    ensures Full(s2) == Full(s) == false
    ensures forall k :: HasSlot(s2, k) <==> HasSlot(s, k) || k == key
  {
    assert s2.slots[at].state == 0;
    assert Claimed(s2.slots[at]);
    forall k ensures HasSlot(s2, k) <==> HasSlot(s, k) || k == key {
      if HasSlot(s, k) {
        var a :| 0 <= a < |s.slots| && Claimed(s.slots[a]) && s.slots[a].key == k;
        assert s2.slots[a] == s.slots[a];
      }
    }
  }

  lemma ClaimThreadOk(s: State, s2: State, key: Key, at: nat, th: Thread)
    requires ClaimedBy(s, s2, key, at) && ThreadOk(s, th) && !Holds(th)
    ensures ThreadOk(s2, th)
  {
    ClaimFrame(s, s2, key, at);
  }

  lemma ClaimSlotOk(s: State, s2: State, t: nat, key: Key, at: nat, a: nat)
    requires ClaimedBy(s, s2, key, at) && KeyOk(key) && a < CAP && SlotOk(s, a)
    requires s2.threads == s.threads[t := Written(key, at)] && s2.lock == s.lock == Some(t)
    requires !ThreadOf(s, t).Written?
    requires PathFilled(s.slots, key, at)
    ensures SlotOk(s2, a)
  {
    if a == at {
      assert PathFilled(s2.slots, key, at);
    } else {
      assert PathFilled(s.slots, s.slots[a].key, a) ==> PathFilled(s2.slots, s.slots[a].key, a);
    }
  }

  lemma PublishKeepsInv(s: State, t: nat, key: Key, at: nat)
    requires Inv(s) && ThreadOf(s, t) == Written(key, at)
    ensures Inv(Publish(s, t, key, at))
  {
    assert ThreadOk(s, ThreadOf(s, t));
    assert Holds(ThreadOf(s, t)) <==> s.lock == Some(t);
    var s2 := Publish(s, t, key, at);
    assert SlotOk(s, at);
    LockKept(s, s2, t, Published(key, at));
    PublishKeepsSlots(s, s2, t, key, at);
    PublishKeepsThreads(s, s2, t, key, at);
    PublishKeepsCounts(s, s2, t, key, at);
    PublishFrame(s, s2, at);
  }

  lemma PublishKeepsSlots(s: State, s2: State, t: nat, key: Key, at: nat)
    requires Inv(s) && PublishedAt(s, s2, at) && Claimed(s.slots[at])
    requires ThreadOf(s, t) == Written(key, at) && s2.threads == s.threads[t := Published(key, at)]
    requires s2.lock == s.lock == Some(t)
    ensures SlotsOk(s2)
  {
    assert SlotOk(s, at);
    forall a | 0 <= a < CAP ensures SlotOk(s2, a) {
      assert SlotOk(s, a);
      PublishSlotOk(s, s2, t, key, at, a);
    }
  }

  lemma PublishKeepsThreads(s: State, s2: State, t: nat, key: Key, at: nat)
    requires Inv(s) && PublishedAt(s, s2, at) && s.lock == Some(t)
    requires ThreadOf(s, t) == Written(key, at) && s2.threads == s.threads[t := Published(key, at)]
    ensures ThreadsOk(s2)
  {
    forall u: nat ensures ThreadOk(s2, ThreadOf(s2, u)) {
      assert ThreadOk(s, ThreadOf(s, u));
      if u != t {
        assert Holds(ThreadOf(s, u)) <==> s.lock == Some(u);
        PublishThreadOk(s, s2, at, ThreadOf(s, u));
      }
    }
  }

  lemma PublishKeepsCounts(s: State, s2: State, t: nat, key: Key, at: nat)
    requires CountsOk(s) && PublishedAt(s, s2, at)
    requires ThreadOf(s, t) == Written(key, at) && s2.threads == s.threads[t := Published(key, at)]
    ensures HitsOk(s2) && NoSlotOk(s2)
  {
    forall k ensures Tally(s2, k) == Tally(s, k) && InFlight(s2, k) == InFlight(s, k) {
      InFlightMove(s, s2, t, Published(key, at), k);
    }
    PublishFrame(s, s2, at);
    PublishKeepsHits(s, s2, at);
  }

  lemma PublishKeepsHits(s: State, s2: State, at: nat)
    requires HitsOk(s) && PublishedAt(s, s2, at)
    requires forall k :: Tally(s2, k) == Tally(s, k)
    ensures HitsOk(s2)
  {
    forall a | 0 <= a < CAP && Claimed(s2.slots[a])
      ensures s2.slots[a].hits == Tally(s2, s2.slots[a].key) % WORD
    {
      assert Claimed(s.slots[a]) && s2.slots[a].hits == s.slots[a].hits && s2.slots[a].key == s.slots[a].key;
    }
  }

  ghost predicate PublishedAt(s: State, s2: State, at: nat) {
    && |s.slots| == CAP && at < CAP && s.slots[at].state == 0
    && s2.slots == s.slots[at := s.slots[at].(state := 2)]
    && s2.nextOrd == s.nextOrd && s2.order == s.order && s2.returned == s.returned
  }

  lemma PublishFrame(s: State, s2: State, at: nat)
    requires PublishedAt(s, s2, at)
    ensures !Full(s)
    ensures forall k :: HasSlot(s2, k) <==> HasSlot(s, k)
  {
    assert forall a :: 0 <= a < CAP ==> s2.slots[a].key == s.slots[a].key && s2.slots[a].ord == s.slots[a].ord;
  }

  lemma PublishThreadOk(s: State, s2: State, at: nat, th: Thread)
    requires PublishedAt(s, s2, at) && ThreadOk(s, th) && !Holds(th)
    ensures ThreadOk(s2, th)
  {
    PublishFrame(s, s2, at);
  }

  lemma PublishSlotOk(s: State, s2: State, t: nat, key: Key, at: nat, a: nat)
    requires PublishedAt(s, s2, at) && a < CAP && |s.order| == s.nextOrd && SlotOk(s, a) && SlotOk(s, at)
    requires Claimed(s.slots[at])
    requires ThreadOf(s, t) == Written(key, at) && s2.threads == s.threads[t := Published(key, at)]
    requires s2.lock == s.lock == Some(t)
    ensures SlotOk(s2, a)
  {
    assert PathFilled(s.slots, s.slots[a].key, a) ==> PathFilled(s2.slots, s.slots[a].key, a);
  }

  /** A returning call leaves the tally of its key as it is, unless the key was dropped,
      and then the table is full. */
  lemma ReturnKeepsInv(s: State, t: nat, key: Key, counted: bool)
    requires Inv(s) && ThreadOf(s, t) == Returning(key, counted)
    ensures Inv(Return(s, t, key))
  {
    assert ThreadOk(s, ThreadOf(s, t));
    var s2 := Return(s, t, key);
    LockKept(s, s2, t, Idle);
    ReturnKeepsSlots(s, s2, t);
    ReturnKeepsThreads(s, s2, t);
    ReturnKeepsCounts(s, s2, t, key, counted);
  }

  lemma ReturnKeepsSlots(s: State, s2: State, t: nat)
    requires Inv(s) && s2.slots == s.slots && s2.order == s.order && s2.nextOrd == s.nextOrd
    requires s2.threads == s.threads[t := Idle] && s2.lock == s.lock && !ThreadOf(s, t).Written?
    ensures SlotsOk(s2)
  {
    forall a | 0 <= a < CAP ensures SlotOk(s2, a) {
      assert SlotOk(s, a);
      assert PathFilled(s2.slots, s2.slots[a].key, a) == PathFilled(s.slots, s.slots[a].key, a);
    }
  }

  lemma ReturnKeepsThreads(s: State, s2: State, t: nat)
    requires Inv(s) && s2.slots == s.slots && s2.nextOrd == s.nextOrd && s2.threads == s.threads[t := Idle]
    ensures ThreadsOk(s2)
  {
    forall u: nat ensures ThreadOk(s2, ThreadOf(s2, u)) {
      assert ThreadOk(s, ThreadOf(s, u));
      SameThreadOk(s, s2, ThreadOf(s2, u));
    }
  }

  lemma ReturnKeepsCounts(s: State, s2: State, t: nat, key: Key, counted: bool)
    requires CountsOk(s) && ThreadOf(s, t) == Returning(key, counted)
    requires ThenOk(s, ThenReturn(key, counted))
    requires s2.slots == s.slots && s2.threads == s.threads[t := Idle]
    requires s2.returned == s.returned + multiset{key}
    ensures HitsOk(s2) && NoSlotOk(s2)
  {
    forall k ensures InFlight(s2, k) == InFlight(s, k) - (if k == key && counted then 1 else 0) {
      InFlightMove(s, s2, t, Idle, k);
    }
    if counted { CountedMeansInFlight(s, t, key); }
    assert Full(s2) == Full(s);
    assert forall k :: HasSlot(s2, k) == HasSlot(s, k);
    forall at | 0 <= at < CAP && Claimed(s2.slots[at])
      ensures s2.slots[at].hits == Tally(s2, s2.slots[at].key) % WORD
    {
      assert HasSlot(s, s.slots[at].key);
    }
  }
}
