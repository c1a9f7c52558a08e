/**
 The passes that turn a first guess at the function starts into the final ranges. They
 share one dictionary from start to end, which they add to, delete from and trim.
 */
module FunctionFinder {
  import opened Common
  import opened PpuCode
  import opened FunctionExtents

  type Ranges = map<nat, nat>

  // ----- sorted starts -----------------------------------------------------------------

  ghost predicate Ascending(s: seq<nat>) {
    forall i, j :: 0 <= i < j < |s| ==> s[i] < s[j]
  }

  ghost predicate Lists(s: seq<nat>, keys: set<nat>) {
    Ascending(s) && forall x :: x in s <==> x in keys
  }

  method Insert(s: seq<nat>, x: nat) returns (r: seq<nat>)
    requires Ascending(s) && x !in s
    ensures Ascending(r) && forall y :: y in r <==> y in s || y == x
  {
    var i := 0;
    while i < |s| && s[i] < x
      invariant i <= |s| && forall k :: 0 <= k < i ==> s[k] < x
    {
      i := i + 1;
    }
    r := s[..i] + [x] + s[i..];
    Inserted(s, x, i, r);
  }

  lemma Inserted(s: seq<nat>, x: nat, i: nat, r: seq<nat>)
    requires Ascending(s) && i <= |s| && r == s[..i] + [x] + s[i..] && x !in s
    requires (forall k :: 0 <= k < i ==> s[k] < x) && (i < |s| ==> s[i] >= x)
    ensures Ascending(r) && forall y :: y in r <==> y in s || y == x
  {
    assert forall k :: 0 <= k < |r| ==> r[k] == if k < i then s[k] else if k == i then x else s[k - 1];
    forall y | y in s ensures y in r {
      var k :| 0 <= k < |s| && s[k] == y;
      assert r[if k < i then k else k + 1] == y;
    }
    assert r[i] == x;
  }

  method Sorted(keys: set<nat>) returns (s: seq<nat>)
    ensures Lists(s, keys)
  {
    s := [];
    var rest := keys;
    while rest != {}
      invariant rest <= keys && Ascending(s)
      invariant forall x :: x in s <==> x in keys - rest
      decreases rest
    {
      var x :| x in rest;
      s := Insert(s, x);
      rest := rest - {x};
    }
  }

  /** How many starts a right bisection puts before the address. */
  method BisectRight(s: seq<nat>, addr: nat) returns (n: nat)
    requires Ascending(s)
    ensures n <= |s| && (forall k :: 0 <= k < n ==> s[k] <= addr) && forall k :: n <= k < |s| ==> s[k] > addr
  {
    var hi := |s|;
    n := 0;
    while n < hi
      invariant n <= hi <= |s|
      invariant (forall k :: 0 <= k < n ==> s[k] <= addr) && forall k :: hi <= k < |s| ==> s[k] > addr
    {
      var mid := (n + hi) / 2;
      if addr < s[mid] { hi := mid; } else { n := mid + 1; }
    }
  }

  // ----- neighbours ---------------------------------------------------------------------

  /** The next start after s, if there is one. */
  ghost predicate NextStart(keys: set<nat>, s: nat, next: Option<nat>) {
    match next
    case None => forall k :: k in keys ==> k <= s
    case Some(m) => m in keys && m > s && forall k :: k in keys && k > s ==> m <= k
  }

  /** The last start at or before an address. */
  ghost predicate LastStart(keys: set<nat>, addr: nat, s: nat) {
    s in keys && s <= addr && forall k :: k in keys && k <= addr ==> k <= s
  }

  /** The function that starts last before the address reaches past it. */
  ghost predicate Covered(f: Ranges, addr: nat) {
    exists s :: LastStart(f.Keys, addr, s) && addr < f[s]
  }

  function After(starts: seq<nat>, i: nat): Option<nat>
    requires i < |starts|
  {
    if i + 1 < |starts| then Some(starts[i + 1]) else None
  }

  lemma AfterIsNext(starts: seq<nat>, keys: set<nat>, i: nat)
    requires Lists(starts, keys) && i < |starts|
    ensures NextStart(keys, starts[i], After(starts, i))
  {
    forall k | k in keys ensures k <= starts[i] || (i + 1 < |starts| && starts[i + 1] <= k) {
      var j :| 0 <= j < |starts| && starts[j] == k;
    }
  }

  method Covers(starts: seq<nat>, f: Ranges, addr: nat) returns (yes: bool)
    requires Lists(starts, f.Keys)
    ensures yes == Covered(f, addr)
  {
    var n := BisectRight(starts, addr);
    if n == 0 {
      assert forall k :: k in f.Keys ==> k > addr;
      return false;
    }
    var s := starts[n - 1];
    assert LastStart(f.Keys, addr, s) by {
      forall k | k in f.Keys && k <= addr ensures k <= s {
        var j :| 0 <= j < |starts| && starts[j] == k;
      }
    }
    return addr < f[s];
  }

  // ----- what each pass does -----------------------------------------------------------

  /** A seeded function ends at its first return, bounded by the next start; failing both
      within 2000 instructions, at the next start. */
  function SeedScan(insns: seq<Insn>, j: nat, stop: nat, next: Option<nat>): Option<nat>
    requires stop <= |insns|
    decreases stop - j
  {
    if j >= stop then None
    else if next.Some? && insns[j].addr >= next.value then next
    else if insns[j].kind == Blr then Some(insns[j].addr + 4)
    else SeedScan(insns, j + 1, stop, next)
  }

  function SeedEnd(code: Code, s: nat, next: Option<nat>): nat
    requires Indexed(code) && s in code.at
  {
    var stop := Least(code.at[s] + 2000, |code.insns|);
    var end := match SeedScan(code.insns, code.at[s], stop, next)
               case Some(e) => e
               case None => if next.Some? then next.value else s + 4;
    if end < s + 4 then s + 4 else end
  }

  function LiveSeeds(code: Code, seeds: set<nat>, f: Ranges): set<nat> {
    set s | s in seeds && s in code.at && s !in f
  }

  /** Every decoded seed is a start; the starts there already keep their ends. */
  ghost predicate Seeded(code: Code, seeds: set<nat>, f: Ranges, g: Ranges)
    requires Indexed(code)
  {
    && g.Keys == f.Keys + LiveSeeds(code, seeds, f)
    && (forall s :: s in f ==> g[s] == f[s])
    && forall s, next :: s in LiveSeeds(code, seeds, f) && NextStart(g.Keys, s, next) ==> g[s] == SeedEnd(code, s, next)
  }

  /** A start at most 32 bytes after the last seed before it, with no way out between them. */
  ghost predicate Sliver(code: Code, seeds: set<nat>, calls: set<nat>, s: nat)
    requires Indexed(code)
  {
    && s !in seeds && s !in calls && s in code.at
    && exists seed :: LastStart(seeds, s, seed) && s - seed <= 32 && seed in code.at && Straight(code, code.at[seed], code.at[s])
  }

  ghost predicate Straight(code: Code, lo: nat, hi: nat) {
    forall k :: lo <= k < hi && k < |code.insns| ==> code.insns[k].kind !in {Blr, B, Rfid}
  }

  /** Exactly the slivers are gone. */
  ghost predicate Pruned(code: Code, seeds: set<nat>, calls: set<nat>, f: Ranges, g: Ranges)
    requires Indexed(code)
  {
    && (forall s :: s in g <==> s in f && !Sliver(code, seeds, calls, s))
    && forall s :: s in g ==> g[s] == f[s]
  }

  function CapOf(code: Code, next: Option<nat>, s: nat): nat {
    match next
    case Some(m) => m
    case None => if code.insns != [] then code.insns[|code.insns| - 1].addr + 4 else s + 4
  }

  /** Each function's end is the furthest instruction it reaches, up to the next start, and
      never below its old end. */
  ghost predicate Grown(code: Code, f: Ranges, g: Ranges)
    requires Indexed(code)
  {
    && g.Keys == f.Keys
    && forall s, next :: s in f && NextStart(f.Keys, s, next) ==> GrownTo(code, s, CapOf(code, next, s), f[s], g[s])
  }

  ghost predicate GrownTo(code: Code, s: nat, cap: nat, was: nat, now: nat)
    requires Indexed(code)
  {
    if s !in code.at then now == was
    else exists end :: Furthest(code, s, cap, was, end) && now == (if Least(end, cap) > was then Least(end, cap) else was)
  }

  /** The call targets no range covers, of calls that some range does. */
  ghost predicate CallTarget(code: Code, f: Ranges, t: nat) {
    && !Covered(f, t) && t !in f
    && exists j :: 0 <= j < |code.insns| && BlTarget(code.insns[j]) == Some(t) && Covered(f, code.insns[j].addr)
  }

  predicate EndsRun(insn: Insn) {
    insn.kind in {Blr, Bctr, B, Blrl, Rfid}
  }

  /** Where a straight run from instruction i (of a block that began at idx) ends. */
  function RunEnd(insns: seq<Insn>, starts: set<nat>, idx: nat, i: nat): nat
    requires idx <= i <= |insns| && 0 < |insns|
    decreases |insns| - i
  {
    if i == |insns| then insns[|insns| - 1].addr + 4
    else if i > idx && insns[i].addr in starts then insns[i].addr
    else if EndsRun(insns[i]) then insns[i].addr + 4
    else RunEnd(insns, starts, idx, i + 1)
  }

  function BlockEnd(code: Code, starts: set<nat>, t: nat): nat
    requires Indexed(code)
  {
    if t in code.at then RunEnd(code.insns, starts, code.at[t], code.at[t]) else t
  }

  /** The branch targets no range covers, of branches that some range does. */
  ghost predicate BranchTarget(code: Code, f: Ranges, t: nat) {
    && !Covered(f, t) && t !in f
    && exists j :: 0 <= j < |code.insns| && IsBranch(code.insns[j]) && t in code.insns[j].targets && Covered(f, code.insns[j].addr)
  }

  /** The first return or other known start within the window. */
  function ReturnScan(insns: seq<Insn>, starts: set<nat>, t: nat, j: nat, stop: nat): Option<nat>
    requires stop <= |insns|
    decreases stop - j
  {
    if j >= stop then None
    else if insns[j].kind == Blr then Some(insns[j].addr + 4)
    else if insns[j].addr != t && insns[j].addr in starts then Some(insns[j].addr)
    else ReturnScan(insns, starts, t, j + 1, stop)
  }

  function BranchEnd(code: Code, starts: set<nat>, t: nat): Option<nat>
    requires Indexed(code)
  {
    if t !in code.at then None
    else
      match ReturnScan(code.insns, starts, t, code.at[t], Least(code.at[t] + 500, |code.insns|))
      case None => None
      case Some(e) => if e >= t + 4 then Some(e) else None
  }

  /** What g adds to f are new starts at addresses f does not cover, with ranges of their own. */
  ghost predicate Promoted(f: Ranges, g: Ranges) {
    && f.Keys <= g.Keys && (forall s :: s in f ==> g[s] == f[s])
    && forall s :: s in g && s !in f ==> !Covered(f, s) && g[s] > s
  }

  /** Overlaps are trimmed to the next start, and an empty range is given up to four bytes. */
  function ClippedEnd(s: nat, end: nat, next: Option<nat>): nat {
    var e := if next.Some? && end > next.value then next.value else end;
    if e <= s then (if next.Some? then Least(s + 4, next.value) else s + 4) else e
  }

  ghost predicate Clipped(f: Ranges, g: Ranges) {
    && g.Keys == f.Keys
    && forall s, next :: s in f && NextStart(f.Keys, s, next) ==> g[s] == ClippedEnd(s, f[s], next)
  }

  /** The two kinds of targets by kinds of instruction. */
  lemma TargetsByKind(code: Code, f: Ranges, t: nat)
    ensures CallTarget(code, f, t) <==>
      && !Covered(f, t) && t !in f
      && exists j :: 0 <= j < |code.insns| && code.insns[j].kind == Bl && code.insns[j].targets != []
                     && code.insns[j].targets[0] == t && Covered(f, code.insns[j].addr)
    ensures BranchTarget(code, f, t) <==>
      && !Covered(f, t) && t !in f
      && exists j :: 0 <= j < |code.insns| && code.insns[j].kind in {B, Ba, Cond}
                     && t in code.insns[j].targets && Covered(f, code.insns[j].addr)
  {
    hide Covered;
    if CallTarget(code, f, t) {
      var j :| 0 <= j < |code.insns| && BlTarget(code.insns[j]) == Some(t) && Covered(f, code.insns[j].addr);
      assert code.insns[j].kind == Bl && code.insns[j].targets[0] == t;
    }
    if j :| 0 <= j < |code.insns| && code.insns[j].kind == Bl && code.insns[j].targets != []
            && code.insns[j].targets[0] == t && Covered(f, code.insns[j].addr) {
      assert BlTarget(code.insns[j]) == Some(t);
    }
  }

  // ----- where the scans stop ----------------------------------------------------------------

  /** The instructions from i to before j neither return nor reach the next start. */
  ghost predicate NoReturn(insns: seq<Insn>, next: Option<nat>, i: nat, j: nat)
    requires j <= |insns|
  {
    forall k :: i <= k < j ==> insns[k].kind != Blr && (next.Some? ==> insns[k].addr < next.value)
  }

  /** The end of a seed: behind the first return among its first 2000 instructions that comes
      before the next start; else the next start, or the seed's own instruction if there is
      none; and never less than one instruction. */
  ghost predicate SeedEndsAt(code: Code, s: nat, next: Option<nat>, end: nat)
    requires Indexed(code) && s in code.at
  {
    exists j: nat :: SeedStops(code, s, next, j, end)
  }

  ghost predicate SeedStops(code: Code, s: nat, next: Option<nat>, j: nat, end: nat)
    requires Indexed(code) && s in code.at
  {
    var i, n := code.at[s], |code.insns|;
    && i <= j <= n && j <= i + 2000 && NoReturn(code.insns, next, i, j)
    && var at := if j == n || j == i + 2000 then (if next.Some? then next.value else s + 4)
                 else if next.Some? && code.insns[j].addr >= next.value then next.value
                 else code.insns[j].addr + 4;
       && (j < n && j < i + 2000 ==> code.insns[j].kind == Blr || (next.Some? && code.insns[j].addr >= next.value))
       && end == if at < s + 4 then s + 4 else at
  }

  lemma {:induction false} SeedScanStops(insns: seq<Insn>, i: nat, stop: nat, next: Option<nat>) returns (j: nat)
    requires i <= stop <= |insns|
    ensures i <= j <= stop && NoReturn(insns, next, i, j)
    ensures SeedScan(insns, i, stop, next) ==
      if j == stop then None
      else if next.Some? && insns[j].addr >= next.value then next
      else Some(insns[j].addr + 4)
    ensures j < stop ==> insns[j].kind == Blr || (next.Some? && insns[j].addr >= next.value)
    decreases stop - i
  {
    if i == stop || (next.Some? && insns[i].addr >= next.value) || insns[i].kind == Blr {
      j := i;
    } else {
      j := SeedScanStops(insns, i + 1, stop, next);
    }
  }

  lemma SeedEndIs(code: Code, s: nat, next: Option<nat>)
    requires Indexed(code) && s in code.at
    ensures SeedEndsAt(code, s, next, SeedEnd(code, s, next))
  {
    hide SeedScan, NoReturn;
    var j := SeedScanStops(code.insns, code.at[s], Least(code.at[s] + 2000, |code.insns|), next);
    assert SeedStops(code, s, next, j, SeedEnd(code, s, next));
  }

  /** The end of a straight run from t: the first start behind t, or behind the first
      instruction that transfers control for good, whichever comes first, else the end of the
      code. */
  ghost predicate RunEndsAt(code: Code, starts: set<nat>, t: nat, end: nat)
    requires Indexed(code) && t in code.at
  {
    exists j: nat :: RunStopsAt(code, starts, t, j, end)
  }

  ghost predicate RunStopsAt(code: Code, starts: set<nat>, t: nat, j: nat, end: nat)
    requires Indexed(code) && t in code.at
  {
    var i, n := code.at[t], |code.insns|;
    && i <= j <= n
    && (forall k :: i <= k < j ==> code.insns[k].kind !in {Blr, Bctr, B, Blrl, Rfid} && (k > i ==> code.insns[k].addr !in starts))
    && (if j == n then end == code.insns[n - 1].addr + 4
        else if j > i && code.insns[j].addr in starts then end == code.insns[j].addr
        else code.insns[j].kind in {Blr, Bctr, B, Blrl, Rfid} && end == code.insns[j].addr + 4)
  }

  lemma {:induction false} RunStops(insns: seq<Insn>, starts: set<nat>, idx: nat, i: nat) returns (j: nat)
    requires idx <= i <= |insns| && 0 < |insns|
    ensures i <= j <= |insns|
    ensures forall k :: i <= k < j ==> insns[k].kind !in {Blr, Bctr, B, Blrl, Rfid} && (k > idx ==> insns[k].addr !in starts)
    ensures if j == |insns| then RunEnd(insns, starts, idx, i) == insns[|insns| - 1].addr + 4
            else if j > idx && insns[j].addr in starts then RunEnd(insns, starts, idx, i) == insns[j].addr
            else insns[j].kind in {Blr, Bctr, B, Blrl, Rfid} && RunEnd(insns, starts, idx, i) == insns[j].addr + 4
    decreases |insns| - i
  {
    if i == |insns| || (i > idx && insns[i].addr in starts) || EndsRun(insns[i]) {
      j := i;
    } else {
      j := RunStops(insns, starts, idx, i + 1);
    }
  }

  lemma BlockEndIs(code: Code, starts: set<nat>, t: nat)
    requires Indexed(code) && t in code.at
    ensures RunEndsAt(code, starts, t, BlockEnd(code, starts, t))
  {
    hide RunEnd;
    var j := RunStops(code.insns, starts, code.at[t], code.at[t]);
    assert RunStopsAt(code, starts, t, j, BlockEnd(code, starts, t));
  }

  /** The end of a promoted branch target: behind the first return, or at the first other
      start, among its first 500 instructions; none if there is neither, or if it comes
      before one whole instruction. */
  ghost predicate TargetEndsAt(code: Code, starts: set<nat>, t: nat, end: Option<nat>)
    requires Indexed(code) && t in code.at
  {
    exists j: nat :: TargetStopsAt(code, starts, t, j, end)
  }

  ghost predicate TargetStopsAt(code: Code, starts: set<nat>, t: nat, j: nat, end: Option<nat>)
    requires Indexed(code) && t in code.at
  {
    var i, n := code.at[t], |code.insns|;
    && i <= j <= n && j <= i + 500
    && (forall k :: i <= k < j ==> code.insns[k].kind != Blr && (code.insns[k].addr != t ==> code.insns[k].addr !in starts))
    && (if j == n || j == i + 500 then end == None
        else
          var found := if code.insns[j].kind == Blr then code.insns[j].addr + 4 else code.insns[j].addr;
          && (code.insns[j].kind == Blr || (code.insns[j].addr != t && code.insns[j].addr in starts))
          && end == if found >= t + 4 then Some(found) else None)
  }

  lemma {:induction false} ReturnScanStops(insns: seq<Insn>, starts: set<nat>, t: nat, i: nat, stop: nat) returns (j: nat)
    requires i <= stop <= |insns|
    ensures i <= j <= stop
    ensures forall k :: i <= k < j ==> insns[k].kind != Blr && (insns[k].addr != t ==> insns[k].addr !in starts)
    ensures if j == stop then ReturnScan(insns, starts, t, i, stop) == None
            else (insns[j].kind == Blr || (insns[j].addr != t && insns[j].addr in starts))
                 && ReturnScan(insns, starts, t, i, stop) == Some(if insns[j].kind == Blr then insns[j].addr + 4 else insns[j].addr)
    decreases stop - i
  {
    if i == stop || insns[i].kind == Blr || (insns[i].addr != t && insns[i].addr in starts) {
      j := i;
    } else {
      j := ReturnScanStops(insns, starts, t, i + 1, stop);
    }
  }

  lemma BranchEndIs(code: Code, starts: set<nat>, t: nat)
    requires Indexed(code) && t in code.at
    ensures TargetEndsAt(code, starts, t, BranchEnd(code, starts, t))
  {
    hide ReturnScan;
    var j := ReturnScanStops(code.insns, starts, t, code.at[t], Least(code.at[t] + 500, |code.insns|));
    assert TargetStopsAt(code, starts, t, j, BranchEnd(code, starts, t));
  }

  // ----- what the passes keep ------------------------------------------------------------

  /** Nonempty ranges, each ending at or before the next start. */
  ghost predicate Disjoint(f: Ranges) {
    && (forall s :: s in f ==> s < f[s])
    && forall s, t :: s in f && t in f && s < t ==> f[s] <= t
  }

  lemma {:induction false} SomeLast(keys: set<nat>, addr: nat, k: nat)
    requires k in keys && k <= addr
    ensures exists s :: LastStart(keys, addr, s) && k <= s
    decreases addr - k
  {
    if m :| m in keys && k < m <= addr {
      SomeLast(keys, addr, m);
    } else {
      assert LastStart(keys, addr, k);
    }
  }

  lemma {:induction false} SomeNext(keys: set<nat>, s: nat, k: nat)
    requires k in keys && k > s
    ensures exists m: nat :: NextStart(keys, s, Some(m)) && m <= k
    decreases k
  {
    if m :| m in keys && s < m < k {
      SomeNext(keys, s, m);
    } else {
      assert NextStart(keys, s, Some(k));
    }
  }

  /** Clipping makes any ranges disjoint. */
  lemma ClippedIsDisjoint(f: Ranges, g: Ranges)
    requires Clipped(f, g)
    ensures Disjoint(g)
  {
    forall s | s in g
      ensures s < g[s]
      ensures forall t :: t in g && s < t ==> g[s] <= t
    {
      if k :| k in f && k > s {
        SomeNext(f.Keys, s, k);
        var m: nat :| NextStart(f.Keys, s, Some(m)) && m <= k;
        assert g[s] == ClippedEnd(s, f[s], Some(m));
      } else {
        assert NextStart(f.Keys, s, None);
      }
    }
  }

  /** No address loses its cover when starts are added where nothing was covered. */
  lemma PromotionKeepsCover(f: Ranges, g: Ranges, a: nat)
    requires Promoted(f, g) && Covered(f, a)
    ensures Covered(g, a)
  {
    var s :| LastStart(f.Keys, a, s) && a < f[s];
    forall k | k in g.Keys && k <= a ensures k <= s {
      assert k > s ==> LastStart(f.Keys, k, s);
    }
    assert LastStart(g.Keys, a, s);
  }

  lemma ClippingKeepsCover(f: Ranges, g: Ranges, a: nat)
    requires Clipped(f, g) && Covered(f, a)
    ensures Covered(g, a)
  {
    var s :| LastStart(f.Keys, a, s) && a < f[s];
    if k :| k in f && k > s {
      SomeNext(f.Keys, s, k);
      var m: nat :| NextStart(f.Keys, s, Some(m));
      assert g[s] == ClippedEnd(s, f[s], Some(m)) && m > a;
    } else {
      assert NextStart(f.Keys, s, None);
    }
    assert LastStart(g.Keys, a, s);
  }

  /** In disjoint ranges an address is covered exactly when some function contains it. */
  lemma CoveredIffContained(f: Ranges, a: nat)
    requires Disjoint(f)
    ensures Covered(f, a) <==> exists s :: s in f && s <= a < f[s]
  {
    if s :| s in f && s <= a < f[s] {
      assert LastStart(f.Keys, a, s);
    }
  }

  // ----- the promotion passes --------------------------------------------------------------

  ghost predicate SameAbove(a: set<nat>, b: set<nat>, t: nat) {
    forall x :: x > t ==> (x in a <==> x in b)
  }

  lemma {:induction false} RunEndSame(insns: seq<Insn>, a: set<nat>, b: set<nat>, idx: nat, i: nat)
    requires Increasing(insns) && idx <= i <= |insns| && idx < |insns| && SameAbove(a, b, insns[idx].addr)
    ensures RunEnd(insns, a, idx, i) == RunEnd(insns, b, idx, i) > insns[idx].addr
    decreases |insns| - i
  {
    if i < |insns| { RunEndSame(insns, a, b, idx, i + 1); }
  }

  lemma {:induction false} ReturnScanSame(insns: seq<Insn>, a: set<nat>, b: set<nat>, t: nat, j: nat, stop: nat)
    requires Increasing(insns) && stop <= |insns| && SameAbove(a, b, t)
    requires forall k :: j <= k < |insns| ==> insns[k].addr >= t
    ensures ReturnScan(insns, a, t, j, stop) == ReturnScan(insns, b, t, j, stop)
    decreases stop - j
  {
    if j < stop { ReturnScanSame(insns, a, b, t, j + 1, stop); }
  }

  /** All call targets that are decoded become functions, each one straight run long. */
  ghost predicate CallsPromoted(code: Code, f: Ranges, g: Ranges)
    requires Indexed(code)
  {
    && Promoted(f, g)
    && (forall s :: s in g && s !in f ==> CallTarget(code, f, s) && s in code.at)
    && (Increasing(code.insns) ==> forall t :: CallTarget(code, f, t) && t in code.at ==>
          t in g && g[t] == BlockEnd(code, f.Keys, t))
  }

  predicate LooksLikeFunction(code: Code, seeds: set<nat>, t: nat)
    requires Indexed(code)
  {
    t in AllBlTargets(code.insns) || t in seeds || HasPrologue(code, t)
  }

  /** What looks like a function: a target of any call, a seed, or code that begins by saving
      the link register within three instructions or by making a frame. */
  lemma LooksByKind(code: Code, seeds: set<nat>, t: nat)
    requires Indexed(code)
    ensures t in AllBlTargets(code.insns) <==>
      exists j :: 0 <= j < |code.insns| && code.insns[j].kind == Bl && code.insns[j].targets != [] && code.insns[j].targets[0] == t
    ensures LooksLikeFunction(code, seeds, t) <==>
      || t in AllBlTargets(code.insns) || t in seeds
      || (t in code.at && code.insns[code.at[t]].kind == StackAlloc)
      || (t in code.at && exists j :: code.at[t] <= j <= code.at[t] + 2 && j < |code.insns| && code.insns[j].kind == MflrR0)
  {
    if j :| 0 <= j < |code.insns| && code.insns[j].kind == Bl && code.insns[j].targets != [] && code.insns[j].targets[0] == t {
      assert BlTarget(code.insns[j]) == Some(t);
    }
    if t in code.at && HasPrologue(code, t) {
      var i := code.at[t];
      assert code.insns[i].kind == StackAlloc || code.insns[i].kind == MflrR0
             || (i + 1 < |code.insns| && code.insns[i + 1].kind == MflrR0)
             || (i + 2 < |code.insns| && code.insns[i + 2].kind == MflrR0);
    }
  }

  /** The branch targets that look like functions and have an end become functions. */
  ghost predicate BranchesPromoted(code: Code, seeds: set<nat>, f: Ranges, g: Ranges)
    requires Indexed(code)
  {
    && Promoted(f, g)
    && (forall s :: s in g && s !in f ==> BranchTarget(code, f, s) && LooksLikeFunction(code, seeds, s) && s in code.at)
    && (Increasing(code.insns) ==> forall t :: BranchTarget(code, f, t) && LooksLikeFunction(code, seeds, t) ==>
          (t in g <==> BranchEnd(code, f.Keys, t).Some?) && (t in g ==> g[t] == BranchEnd(code, f.Keys, t).value))
  }
}
