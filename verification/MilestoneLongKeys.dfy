/** Keys longer than the slot's buffer: what the table does not promise for them. */
module MilestoneLongKeys {
  import opened Common
  import opened Milestone
  import opened MilestoneProof
  import MilestoneRuns

  /** Two published slots hold the same key. */
  ghost predicate Duplicated(s: State) {
    exists a, b :: 0 <= a < b < |s.slots| && s.slots[a].state == 2 && s.slots[b].state == 2
                   && s.slots[a].key == s.slots[b].key
  }

  ghost predicate OnlyCalls(schedule: Schedule, key: Key) {
    forall k :: 0 <= k < |schedule| && schedule[k].1.Call? ==> schedule[k].1.key == key
  }

  /** Thread 0 alone: where it stands, the table, and that it can go on. */
  ghost predicate Solo(s: State, th: Thread, slots: seq<Slot>, nextOrd: nat) {
    && |slots| == CAP && s.slots == slots && ThreadOf(s, 0) == th && s.nextOrd == nextOrd
    && s.lock == (if Holds(th) then Some(0) else None) && s.isOpen
  }

  /** Consecutive states of a run of thread 0, which only calls key. */
  ghost predicate Trace(key: Key, states: seq<State>, choices: seq<Choice>) {
    && |states| == |choices| + 1 && states[0] == Init()
    && forall k {:trigger choices[k]} :: 0 <= k < |choices| ==>
         && (choices[k].Call? ==> choices[k].key == key)
         && |states[k].slots| == CAP && states[k + 1] == Step(states[k], 0, choices[k])
  }

  /** Calls on key by thread 0 alone can lead there. */
  ghost predicate Reaches(key: Key, th: Thread, slots: seq<Slot>, nextOrd: nat) {
    exists states, choices {:trigger Trace(key, states, choices)} ::
      Trace(key, states, choices) && Solo(states[|states| - 1], th, slots, nextOrd)
  }

  lemma Extend(key: Key, states: seq<State>, choices: seq<Choice>, c: Choice, th: Thread, slots: seq<Slot>, nextOrd: nat)
    requires Trace(key, states, choices) && (c.Call? ==> c.key == key) && |states[|states| - 1].slots| == CAP
    requires Solo(Step(states[|states| - 1], 0, c), th, slots, nextOrd)
    ensures Reaches(key, th, slots, nextOrd)
  {
    var longer, more := states + [Step(states[|states| - 1], 0, c)], choices + [c];
    forall k | 0 <= k < |more|
      ensures (more[k].Call? ==> more[k].key == key)
              && |longer[k].slots| == CAP && longer[k + 1] == Step(longer[k], 0, more[k])
    {
      if k < |choices| { assert more[k] == choices[k]; }
    }
    assert Trace(key, longer, more);
  }

  lemma {:induction false} TraceIsRun(key: Key, states: seq<State>, choices: seq<Choice>, schedule: Schedule)
    requires Trace(key, states, choices) && |schedule| == |choices|
    requires forall k :: 0 <= k < |schedule| ==> schedule[k] == (0, choices[k])
    ensures OnlyCalls(schedule, key) && Run(Init(), schedule) == states[|states| - 1]
    decreases |choices|
  {
    if |choices| > 0 {
      var last := |choices| - 1;
      assert Trace(key, states[..|states| - 1], choices[..last]) by {
        forall k | 0 <= k < last
          ensures (choices[..last][k].Call? ==> choices[..last][k].key == key)
                  && |states[k].slots| == CAP && states[k + 1] == Step(states[k], 0, choices[..last][k])
        {
          assert choices[..last][k] == choices[k];
        }
      }
      TraceIsRun(key, states[..|states| - 1], choices[..last], schedule[..last]);
      assert schedule[last] == (0, choices[last]);
    }
  }

  lemma Starts(key: Key, slots: seq<Slot>, n: nat)
    requires key != [] && Reaches(key, Idle, slots, n)
    ensures Reaches(key, Scan(key, 0), slots, n)
  {
    var states, choices :| Trace(key, states, choices) && Solo(states[|states| - 1], Idle, slots, n);
    Extend(key, states, choices, Call(key, false), Scan(key, 0), slots, n);
  }

  lemma LooksFurther(key: Key, i: nat, slots: seq<Slot>, n: nat, locked: bool)
    requires i < CAP && |slots| == CAP
    requires slots[Probe(Hash(key), i)].state == 2 && slots[Probe(Hash(key), i)].key != key
    requires Reaches(key, if locked then LockedScan(key, i) else Scan(key, i), slots, n)
    ensures Reaches(key, if locked then LockedScan(key, i + 1) else Scan(key, i + 1), slots, n)
  {
    var th := if locked then LockedScan(key, i) else Scan(key, i);
    var states, choices :| Trace(key, states, choices) && Solo(states[|states| - 1], th, slots, n);
    Extend(key, states, choices, Go(false), if locked then LockedScan(key, i + 1) else Scan(key, i + 1), slots, n);
  }

  lemma FindsEmpty(key: Key, i: nat, slots: seq<Slot>, n: nat)
    requires i < CAP && |slots| == CAP && slots[Probe(Hash(key), i)].state == 0
    requires Reaches(key, Scan(key, i), slots, n)
    ensures Reaches(key, LockedScan(key, 0), slots, n)
  {
    WantsInsert(key, i, slots, n);
    var states, choices :| Trace(key, states, choices) && Solo(states[|states| - 1], WantInsert(key), slots, n);
    Extend(key, states, choices, Go(false), LockedScan(key, 0), slots, n);
  }

  lemma WantsInsert(key: Key, i: nat, slots: seq<Slot>, n: nat)
    requires i < CAP && |slots| == CAP && slots[Probe(Hash(key), i)].state == 0
    requires Reaches(key, Scan(key, i), slots, n)
    ensures Reaches(key, WantInsert(key), slots, n)
  {
    var states, choices :| Trace(key, states, choices) && Solo(states[|states| - 1], Scan(key, i), slots, n);
    Extend(key, states, choices, Go(false), WantInsert(key), slots, n);
  }

  lemma Takes(key: Key, i: nat, slots: seq<Slot>, n: nat, at: nat)
    requires i < CAP && |slots| == CAP && at == Probe(Hash(key), i) && slots[at].state == 0
    requires Reaches(key, LockedScan(key, i), slots, n)
    ensures Reaches(key, Published(key, at), slots[at := Slot(2, n + 1, 1, Truncate(key))], n + 1)
  {
    var claimed := slots[at := Slot(0, n + 1, 1, Truncate(key))];
    Writes(key, i, slots, n, at);
    var states, choices :| Trace(key, states, choices) && Solo(states[|states| - 1], Written(key, at), claimed, n + 1);
    assert claimed[at := claimed[at].(state := 2)] == slots[at := Slot(2, n + 1, 1, Truncate(key))];
    Extend(key, states, choices, Go(false), Published(key, at), slots[at := Slot(2, n + 1, 1, Truncate(key))], n + 1);
  }

  lemma Writes(key: Key, i: nat, slots: seq<Slot>, n: nat, at: nat)
    requires i < CAP && |slots| == CAP && at == Probe(Hash(key), i) && slots[at].state == 0
    requires Reaches(key, LockedScan(key, i), slots, n)
    ensures Reaches(key, Written(key, at), slots[at := Slot(0, n + 1, 1, Truncate(key))], n + 1)
  {
    var states, choices :| Trace(key, states, choices) && Solo(states[|states| - 1], LockedScan(key, i), slots, n);
    Extend(key, states, choices, Go(false), Written(key, at), slots[at := Slot(0, n + 1, 1, Truncate(key))], n + 1);
  }

  /** A thread that is only on its way out moves on without touching the table. */
  lemma LeavesAlone(key: Key, th: Thread, next: Thread, slots: seq<Slot>, n: nat)
    requires Reaches(key, th, slots, n)
    requires
      || (th.Published? && th.at < CAP && next == Streamed(th.key))
      || (th.Streamed? && next == Unlocking(ThenReturn(th.key, true)))
      || (th == Unlocking(ThenReturn(key, true)) && next == Returning(key, true))
      || (th == Returning(key, true) && next == Idle)
    ensures Reaches(key, next, slots, n)
  {
    var states, choices :| Trace(key, states, choices) && Solo(states[|states| - 1], th, slots, n);
    LeavesAloneStep(key, states[|states| - 1], th, next, slots, n);
    Extend(key, states, choices, Go(false), next, slots, n);
  }

  lemma LeavesAloneStep(key: Key, s: State, th: Thread, next: Thread, slots: seq<Slot>, n: nat)
    requires Solo(s, th, slots, n)
    requires
      || (th.Published? && th.at < CAP && next == Streamed(th.key))
      || (th.Streamed? && next == Unlocking(ThenReturn(th.key, true)))
      || (th == Unlocking(ThenReturn(key, true)) && next == Returning(key, true))
      || (th == Returning(key, true) && next == Idle)
    ensures Solo(Step(s, 0, Go(false)), next, slots, n)
  {
  }

  lemma Returns(key: Key, at: nat, slots: seq<Slot>, n: nat)
    requires at < CAP && Reaches(key, Published(key, at), slots, n)
    ensures Reaches(key, Idle, slots, n)
  {
    LeavesAlone(key, Published(key, at), Streamed(key), slots, n);
    LeavesAlone(key, Streamed(key), Unlocking(ThenReturn(key, true)), slots, n);
    LeavesAlone(key, Unlocking(ThenReturn(key, true)), Returning(key, true), slots, n);
    LeavesAlone(key, Returning(key, true), Idle, slots, n);
  }

  function OneSlot(key: Key): seq<Slot> {
    Init().slots[Probe(Hash(key), 0) := Slot(2, 1, 1, Truncate(key))]
  }

  /** The first call takes the home slot, with whatever of the key fits. */
  lemma FirstCall(key: Key)
    requires key != []
    ensures Reaches(key, Idle, OneSlot(key), 1)
  {
    var none := Init().slots;
    assert Trace(key, [Init()], []) && Solo([Init()][0], Idle, none, 0);
    Starts(key, none, 0);
    FindsEmpty(key, 0, none, 0);
    Takes(key, 0, none, 0, Probe(Hash(key), 0));
    Returns(key, Probe(Hash(key), 0), OneSlot(key), 1);
  }

  /** A second call on a key that was cut does not find it, and takes another slot. */
  lemma SecondCall(key: Key)
    requires |key| > KEY_ROOM
    ensures Probe(Hash(key), 1) != Probe(Hash(key), 0)
    ensures Reaches(key, Published(key, Probe(Hash(key), 1)),
                    OneSlot(key)[Probe(Hash(key), 1) := Slot(2, 2, 1, Truncate(key))], 2)
  {
    DistanceProbe(key, 0);
    DistanceProbe(key, 1);
    var one := OneSlot(key);
    FirstCall(key);
    Starts(key, one, 1);
    LooksFurther(key, 0, one, 1, false);
    FindsEmpty(key, 1, one, 1);
    LooksFurther(key, 0, one, 1, true);
    Takes(key, 1, one, 1, Probe(Hash(key), 1));
  }

  lemma SecondCallTakesAnotherSlot(key: Key)
    requires |key| > KEY_ROOM
    ensures exists schedule :: OnlyCalls(schedule, key) && Duplicated(Run(Init(), schedule))
  {
    SecondCall(key);
    var home, next := Probe(Hash(key), 0), Probe(Hash(key), 1);
    var two := OneSlot(key)[next := Slot(2, 2, 1, Truncate(key))];
    var states, choices :| Trace(key, states, choices) && Solo(states[|states| - 1], Published(key, next), two, 2);
    TwoAlike(states[|states| - 1], home, next);
    var schedule := seq(|choices|, k requires 0 <= k < |choices| => (0, choices[k]));
    TraceIsRun(key, states, choices, schedule);
  }

  lemma TwoAlike(s: State, a: nat, b: nat)
    requires a < |s.slots| && b < |s.slots| && a != b && s.slots[a].state == 2 && s.slots[b].state == 2
    requires s.slots[a].key == s.slots[b].key
    ensures Duplicated(s)
  {
    var low, high := if a < b then a else b, if a < b then b else a;
    assert s.slots[low].key == s.slots[high].key;
  }

  /** Calls on a key can leave it in two slots exactly when the key does not fit. */
  lemma DuplicatedIffTooLong(key: Key)
    requires key != []
    ensures (exists schedule :: OnlyCalls(schedule, key) && Duplicated(Run(Init(), schedule)))
            <==> |key| > KEY_ROOM
  {
    if |key| > KEY_ROOM {
      SecondCallTakesAnotherSlot(key);
    } else {
      forall schedule | OnlyCalls(schedule, key) ensures !Duplicated(Run(Init(), schedule)) {
        assert KeysFit(schedule);
        MilestoneRuns.TableShape(schedule);
      }
    }
  }
}
