/**
 The milestone table as a state machine: any number of threads, each advancing by
 atomic steps over one shared table, lock and log.

 A schedule says which thread moves next and, where the program consults its caller or
 the clock, what it is told. Every schedule is a run; every interleaving is a schedule.
 */
module Milestone {
  import opened Common

  const CAP: nat := 2048
  const KEY_ROOM: nat := 95   // the key buffer less its terminator
  const WORD: nat := 0x1_0000_0000

  /** A byte of a C string. */
  type Byte = b: nat | 1 <= b < 256 witness 1

  type Key = seq<Byte>

  function XorBits(a: nat, b: nat, width: nat): nat {
    if width == 0 then 0
    else 2 * XorBits(a / 2, b / 2, width - 1) + (if a % 2 == b % 2 then 0 else 1)
  }

  /** FNV-1a over 32-bit words. A byte reaches only the low eight bits of the exclusive or. */
  function HashFrom(h: nat, key: Key): nat
    decreases |key|
  {
    if key == [] then h
    else HashFrom((h - h % 256 + XorBits(h % 256, key[0], 8)) * 16777619 % WORD, key[1..])
  }

  function Hash(key: Key): nat {
    HashFrom(2166136261, key)
  }

  /** The i-th slot looked at for a hash: a 32-bit sum, masked to the capacity. */
  function Probe(hash: nat, i: nat): (at: nat)
    ensures at < CAP
  {
    ((hash + i) % WORD) % CAP
  }

  function Truncate(key: Key): Key {
    if |key| <= KEY_ROOM then key else key[..KEY_ROOM]
  }

  datatype Slot = Slot(state: nat, ord: nat, hits: nat, key: Key)

  function Bucket(n: nat): string {
    if n == 0 then "0"
    else if n == 1 then "1"
    else if n < 10 then "2-9"
    else if n < 100 then "10-99"
    else if n < 1000 then "100-999"
    else if n < 10000 then "1k-9k"
    else if n < 100000 then "10k-99k"
    else "100k+"
  }

  datatype Line = Header | Stream(ord: nat, key: Key) | CountsMark | Count(key: Key, bucket: string)
                | Kv(key: Key, value: int) | End

  /** Where a lock holder goes next. */
  datatype Then = ThenReturn(key: Key, counted: bool) | ThenScan(key: Key) | ThenIdle | ThenEnd

  /** What a thread is about to do. The states from LockedScan to Unlocking hold the lock. */
  datatype Thread =
    | Idle
    | WantCheckpoint(key: Key)          // ps3_ms on a tick, before its scan
    | Scan(key: Key, i: nat)            // the lock-free probe loop
    | Hit(key: Key, at: nat)            // found the key, about to count it
    | WantInsert(key: Key)
    | WantKv(key: Key, value: int)
    | WantDump
    | Returning(key: Key, counted: bool)
    | LockedScan(key: Key, i: nat)      // the probe loop of the insert path
    | LockedHit(key: Key, at: nat)
    | Written(key: Key, at: nat)        // key, ord and hits stored, not yet published
    | Published(key: Key, at: nat)
    | Streamed(key: Key)                // the stream line is out; maybe a counts block next
    | AtCheckpoint(key: Key)
    | WritingKv(key: Key, value: int)
    | AtDump
    | Counting(ord: nat, then_: Then)   // inside the counts block, about to do ordinal ord
    | Unlocking(then_: Then)

  /** What the outside tells a thread when it moves. */
  datatype Choice = Call(key: Key, tick: bool) | CallKv(key: Key, value: int) | CallDump | Go(due: bool)

  /** order and returned are history: the slots in the order they were claimed, and the
      ps3_ms calls that have returned. */
  datatype State = State(slots: seq<Slot>, lock: Option<nat>, nextOrd: nat, isOpen: bool, dumped: bool,
                         threads: map<nat, Thread>, log: seq<Line>, order: seq<nat>, returned: multiset<Key>)

  function Init(): State {
    State(seq(CAP, _ => Slot(0, 0, 0, [])), None, 0, true, false, map[], [Header], [], multiset{})
  }

  function ThreadOf(s: State, t: nat): Thread {
    if t in s.threads then s.threads[t] else Idle
  }

  predicate Holds(th: Thread) {
    th.LockedScan? || th.LockedHit? || th.Written? || th.Published? || th.Streamed? || th.AtCheckpoint?
    || th.WritingKv? || th.AtDump? || th.Counting? || th.Unlocking?
  }

  function Move(s: State, t: nat, th: Thread): State {
    s.(threads := s.threads[t := th])
  }

  function Acquire(s: State, t: nat, th: Thread): State {
    if s.lock == None then Move(s, t, th).(lock := Some(t)) else s
  }

  function Append(s: State, line: Line): State {
    s.(log := s.log + [line])
  }

  function Bump(s: State, at: nat): State
    requires at < |s.slots|
  {
    s.(slots := s.slots[at := s.slots[at].(hits := (s.slots[at].hits + 1) % WORD)])
  }

  /** The slot the counts pass finds for an ordinal: the last published one that has it,
      else slot 0. */
  function ByOrd(slots: seq<Slot>, ord: nat): (at: nat)
    ensures at == 0 || (at < |slots| && slots[at].state == 2 && slots[at].ord == ord)
    ensures (exists i :: 0 <= i < |slots| && slots[i].state == 2 && slots[i].ord == ord) ==>
              at < |slots| && slots[at].state == 2 && slots[at].ord == ord
  {
    if |slots| == 0 then 0
    else
      var last := |slots| - 1;
      if slots[last].state == 2 && slots[last].ord == ord then last
      else ByOrd(slots[..last], ord)
  }

  function Begin(s: State, t: nat, c: Choice): State {
    match c
    case Call(key, tick) =>
      if key == [] then s else if tick then Move(s, t, WantCheckpoint(key)) else Move(s, t, Scan(key, 0))
    case CallKv(key, value) => if key == [] then s else Move(s, t, WantKv(key, value))
    case CallDump => Move(s, t, WantDump)
    case Go(_) => s
  }

  /** One look of the lock-free loop. An empty slot proves nothing: the insert path looks again. */
  function ScanStep(s: State, t: nat, key: Key, i: nat): State
    requires |s.slots| == CAP
  {
    if i >= CAP then Move(s, t, WantInsert(key))
    else
      var at := Probe(Hash(key), i);
      if s.slots[at].state == 0 then Move(s, t, WantInsert(key))
      else if s.slots[at].state == 2 && s.slots[at].key == key then Move(s, t, Hit(key, at))
      else Move(s, t, Scan(key, i + 1))
  }

  function HitStep(s: State, t: nat, at: nat, next: Thread): State
    requires |s.slots| == CAP
  {
    if at < CAP then Move(Bump(s, at), t, next) else s
  }

  function Claim(s: State, t: nat, key: Key, at: nat): State
    requires at < |s.slots|
  {
    Move(s.(slots := s.slots[at := Slot(0, s.nextOrd + 1, 1, Truncate(key))],
            nextOrd := s.nextOrd + 1, order := s.order + [at]), t, Written(key, at))
  }

  /** One look of the loop under the lock; an empty slot is claimed, a full table drops the key. */
  function LockedScanStep(s: State, t: nat, key: Key, i: nat): State
    requires |s.slots| == CAP
  {
    if i >= CAP then Move(s, t, Unlocking(ThenReturn(key, false)))
    else
      var at := Probe(Hash(key), i);
      if s.slots[at].state == 0 then Claim(s, t, key, at)
      else if s.slots[at].state == 2 && s.slots[at].key == key then Move(s, t, LockedHit(key, at))
      else Move(s, t, LockedScan(key, i + 1))
  }

  function Publish(s: State, t: nat, key: Key, at: nat): State
    requires |s.slots| == CAP
  {
    if at < CAP then Move(s.(slots := s.slots[at := s.slots[at].(state := 2)]), t, Published(key, at)) else s
  }

  function StreamStep(s: State, t: nat, key: Key, at: nat): State
    requires |s.slots| == CAP
  {
    if at < CAP && s.isOpen
    then Move(Append(s, Stream(s.slots[at].ord, s.slots[at].key)), t, Streamed(key))
    else Move(s, t, Unlocking(ThenReturn(key, true)))
  }

  /** The counts block is started only while the log is open and not dumped, and when due. */
  function MaybeCounts(s: State, t: nat, due: bool, next: Then): State {
    if s.isOpen && !s.dumped && due
    then Move(Append(s, CountsMark), t, Counting(1, next))
    else Move(s, t, Unlocking(next))
  }

  function KvStep(s: State, t: nat, key: Key, value: int): State {
    Move(if s.isOpen then Append(s, Kv(key, value)) else s, t, Unlocking(ThenIdle))
  }

  function DumpStep(s: State, t: nat): State {
    if s.dumped || !s.isOpen then Move(s, t, Unlocking(ThenIdle))
    else Move(Append(s, CountsMark).(dumped := true), t, Counting(1, ThenEnd))
  }

  function CountStep(s: State, t: nat, ord: nat, next: Then): State
    requires |s.slots| == CAP
  {
    if ord <= s.nextOrd && ord <= CAP then
      var slot := s.slots[ByOrd(s.slots, ord)];
      var wrote := if slot.ord == ord then Append(s, Count(slot.key, Bucket(slot.hits))) else s;
      Move(wrote, t, Counting(ord + 1, next))
    else if next == ThenEnd then
      Move(Append(s, End).(isOpen := false), t, Unlocking(ThenIdle))
    else Move(s, t, Unlocking(next))
  }

  function After(next: Then): Thread {
    match next
    case ThenReturn(key, counted) => Returning(key, counted)
    case ThenScan(key) => Scan(key, 0)
    case ThenIdle => Idle
    case ThenEnd => Idle
  }

  function Unlock(s: State, t: nat, next: Then): State {
    Move(s.(lock := None), t, After(next))
  }

  function Return(s: State, t: nat, key: Key): State {
    Move(s.(returned := s.returned + multiset{key}), t, Idle)
  }

  /** A step of a thread that does not hold the lock. A thread that cannot get it spins. */
  function FreeStep(s: State, t: nat, c: Choice): State
    requires |s.slots| == CAP && !Holds(ThreadOf(s, t))
  {
    match ThreadOf(s, t)
    case Idle => Begin(s, t, c)
    case WantCheckpoint(key) => Acquire(s, t, AtCheckpoint(key))
    case Scan(key, i) => ScanStep(s, t, key, i)
    case Hit(key, at) => HitStep(s, t, at, Returning(key, true))
    case WantInsert(key) => Acquire(s, t, LockedScan(key, 0))
    case WantKv(key, value) => Acquire(s, t, WritingKv(key, value))
    case WantDump => Acquire(s, t, AtDump)
    case Returning(key, _) => Return(s, t, key)
  }

  /** A step of the thread that holds the lock. */
  function HolderStep(s: State, t: nat, c: Choice): State
    requires |s.slots| == CAP && Holds(ThreadOf(s, t))
  {
    match ThreadOf(s, t)
    case LockedScan(key, i) => LockedScanStep(s, t, key, i)
    case LockedHit(key, at) => HitStep(s, t, at, Unlocking(ThenReturn(key, true)))
    case Written(key, at) => Publish(s, t, key, at)
    case Published(key, at) => StreamStep(s, t, key, at)
    case Streamed(key) => MaybeCounts(s, t, c == Go(true), ThenReturn(key, true))
    case AtCheckpoint(key) => MaybeCounts(s, t, c == Go(true), ThenScan(key))
    case WritingKv(key, value) => KvStep(s, t, key, value)
    case AtDump => DumpStep(s, t)
    case Counting(ord, next) => CountStep(s, t, ord, next)
    case Unlocking(next) => Unlock(s, t, next)
  }

  /** One atomic step of thread t. */
  function Step(s: State, t: nat, c: Choice): State
    requires |s.slots| == CAP
  {
    if Holds(ThreadOf(s, t)) then HolderStep(s, t, c) else FreeStep(s, t, c)
  }

  type Schedule = seq<(nat, Choice)>

  lemma StepSize(s: State, t: nat, c: Choice)
    requires |s.slots| == CAP
    ensures |Step(s, t, c).slots| == CAP
  {
    if Holds(ThreadOf(s, t)) { HolderStepSize(s, t, c); } else { FreeStepSize(s, t, c); }
  }

  lemma FreeStepSize(s: State, t: nat, c: Choice)
    requires |s.slots| == CAP && !Holds(ThreadOf(s, t))
    ensures |FreeStep(s, t, c).slots| == CAP
  {
  }

  lemma HolderStepSize(s: State, t: nat, c: Choice)
    requires |s.slots| == CAP && Holds(ThreadOf(s, t))
    ensures |HolderStep(s, t, c).slots| == CAP
  {
  }

  function Run(s: State, schedule: Schedule): (after: State)
    requires |s.slots| == CAP
    ensures |after.slots| == CAP
    decreases |schedule|
  {
    if schedule == [] then s
    else
      var before := Run(s, schedule[..|schedule| - 1]);
      var (t, c) := schedule[|schedule| - 1];
      StepSize(before, t, c);
      Step(before, t, c)
  }

  /** Every key handed to ps3_ms fits the slot's key buffer. */
  ghost predicate KeysFit(schedule: Schedule) {
    forall k :: 0 <= k < |schedule| && schedule[k].1.Call? ==> |schedule[k].1.key| <= KEY_ROOM
  }
}
