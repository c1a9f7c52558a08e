/**
 Function ranges of an SPU text segment: seeds, the forward walk that ends each function,
 and the merge of ranges that overlap.
 */
module SpuRanges {
  import opened Common
  import opened FunctionFinder

  type Range = (nat, nat)

  /** A text segment: for each decoded address, whether the instruction there ends the
      fall-through of a function (a return, an unconditional jump, a stop that does not
      resume). */
  datatype Text = Text(start: nat, end: nat, stops: map<nat, bool>)

  /** Every decoded instruction is a whole word of the segment. */
  ghost predicate Decoded(t: Text) {
    forall a :: a in t.stops ==> t.start <= a && a + 4 <= t.end
  }

  predicate Inside(t: Text, a: nat) {
    t.start <= a < t.end
  }

  /** Entry, symbols and branch targets in range; hints must also be aligned and decoded;
      the segment's own start if there is nothing else. */
  function Seeds(t: Text, entry: nat, symbols: set<nat>, branches: set<nat>, hints: set<nat>): set<nat> {
    var found := (set a | a in {entry} + symbols + branches && Inside(t, a))
                 + set a | a in hints && Inside(t, a) && a % 4 == 0 && a in t.stops;
    if found == {} then {t.start} else found
  }

  /** The first start after this one, or the end of the segment. */
  function NextOf(starts: seq<nat>, start: nat, end: nat): nat {
    if starts == [] then end
    else if starts[0] > start then starts[0]
    else NextOf(starts[1..], start, end)
  }

  /** Where the walk from pc stops: past the first instruction that ends the function, or at
      the next start or the end of the segment when it gets there or loses the decoding. */
  function EndFrom(t: Text, pc: nat, next: nat): nat
    decreases next - pc
  {
    if pc < next && pc < t.end && pc in t.stops then
      if t.stops[pc] then pc + 4 else EndFrom(t, pc + 4, next)
    else Least(next, t.end)
  }

  /** The k-th word from an address. */
  function WordAt(pc: nat, k: nat): nat { pc + 4 * k }

  /** The walk passes n words, all decoded, none ending the function, all before the bound;
      then it is at the bound or past it or off the decoded words, and the function ends at
      the bound, or at a word that ends it, and the function ends behind that. */
  ghost predicate WalkEnds(t: Text, start: nat, bound: nat, n: nat, end: nat) {
    && (forall k: nat {:trigger WordAt(start, k)} :: k < n ==>
          WordAt(start, k) < bound && WordAt(start, k) in t.stops && !t.stops[WordAt(start, k)])
    && var pc := WordAt(start, n);
       if pc < bound && pc in t.stops then t.stops[pc] && end == pc + 4 else end == bound
  }

  /** The bound of a start: the least start above it, or the end of the segment if there is
      none or it lies beyond. */
  ghost predicate IsBound(t: Text, starts: seq<nat>, start: nat, bound: nat) {
    && bound <= t.end && (forall k :: 0 <= k < |starts| && starts[k] > start ==> bound <= starts[k])
    && (bound == t.end || exists k :: 0 <= k < |starts| && starts[k] > start && bound == starts[k])
  }

  lemma {:induction false} WalkOf(t: Text, pc: nat, next: nat) returns (n: nat)
    ensures WalkEnds(t, pc, Least(next, t.end), n, EndFrom(t, pc, next))
    decreases next - pc
  {
    if pc < next && pc < t.end && pc in t.stops && !t.stops[pc] {
      n := WalkOf(t, pc + 4, next);
      forall k: nat | k < n + 1
        ensures WordAt(pc, k) < Least(next, t.end) && WordAt(pc, k) in t.stops && !t.stops[WordAt(pc, k)]
      {
        if k > 0 { assert WordAt(pc, k) == WordAt(pc + 4, k - 1); }
      }
      n := n + 1;
    } else {
      n := 0;
    }
  }

  lemma {:induction false} NextIsBound(t: Text, starts: seq<nat>, start: nat)
    requires Ascending(starts)
    ensures IsBound(t, starts, start, Least(NextOf(starts, start, t.end), t.end))
    decreases |starts|
  {
    if starts != [] && starts[0] <= start {
      var rest := starts[1..];
      NextIsBound(t, rest, start);
      var bound := Least(NextOf(rest, start, t.end), t.end);
      forall k | 0 <= k < |starts| && starts[k] > start ensures bound <= starts[k] {
        assert rest[k - 1] == starts[k];
      }
      if bound != t.end {
        var k :| 0 <= k < |rest| && rest[k] > start && bound == rest[k];
        assert starts[k + 1] == rest[k];
      }
    }
  }

  method FindEnd(t: Text, starts: seq<nat>, start: nat) returns (end: nat)
    ensures end == EndFrom(t, start, NextOf(starts, start, t.end))
    ensures exists n :: WalkEnds(t, start, Least(NextOf(starts, start, t.end), t.end), n, end)
    ensures Ascending(starts) ==> IsBound(t, starts, start, Least(NextOf(starts, start, t.end), t.end))
  {
    hide WalkEnds, IsBound;
    ghost var n := WalkOf(t, start, NextOf(starts, start, t.end));
    if Ascending(starts) { NextIsBound(t, starts, start); }
    var i := 0;
    while i < |starts| && starts[i] <= start
      invariant i <= |starts| && NextOf(starts[i..], start, t.end) == NextOf(starts, start, t.end)
    {
      assert starts[i..][1..] == starts[i + 1..];
      i := i + 1;
    }
    var next := if i < |starts| then starts[i] else t.end;
    var pc := start;
    while pc < next && pc < t.end
      invariant EndFrom(t, pc, next) == EndFrom(t, start, next)
      decreases next - pc
    {
      if pc !in t.stops { break; }
      if t.stops[pc] { return pc + 4; }
      pc := pc + 4;
    }
    return Least(next, t.end);
  }

  /** The end of a start: its symbol's size if it has one, else the walk's. */
  function EndOf(t: Text, starts: seq<nat>, sized: map<nat, nat>, s: nat): nat {
    if s in sized then sized[s] else EndFrom(t, s, NextOf(starts, s, t.end))
  }

  function AllRanges(t: Text, starts: seq<nat>, sized: map<nat, nat>, n: nat): seq<Range>
    requires n <= |starts|
  {
    if n == 0 then []
    else
      var s := starts[n - 1];
      var end := EndOf(t, starts, sized, s);
      AllRanges(t, starts, sized, n - 1) + (if end > s then [(s, end)] else [])
  }

  /** The ranges before the merge are the starts with their ends, where the end is past the
      start: the symbol's size if there is one, else where the walk ends. */
  lemma {:induction false} RangesAreEnds(t: Text, starts: seq<nat>, sized: map<nat, nat>, n: nat, r: Range)
    requires n <= |starts| && Ascending(starts)
    ensures r in AllRanges(t, starts, sized, n) <==> exists k :: 0 <= k < n && r == (starts[k], EndOf(t, starts, sized, starts[k])) && r.0 < r.1
    decreases n
  {
    hide EndOf;
    if n > 0 {
      RangesAreEnds(t, starts, sized, n - 1, r);
      var s := starts[n - 1];
      var last := if EndOf(t, starts, sized, s) > s then [(s, EndOf(t, starts, sized, s))] else [];
      assert r in AllRanges(t, starts, sized, n) <==> r in AllRanges(t, starts, sized, n - 1) || r in last;
    }
  }

  lemma EndsAreWalked(t: Text, starts: seq<nat>, sized: map<nat, nat>, s: nat) returns (n: nat, bound: nat)
    requires Ascending(starts)
    ensures IsBound(t, starts, s, bound)
    ensures if s in sized then EndOf(t, starts, sized, s) == sized[s] else WalkEnds(t, s, bound, n, EndOf(t, starts, sized, s))
  {
    hide IsBound, WalkEnds, EndFrom, NextOf;
    bound := Least(NextOf(starts, s, t.end), t.end);
    NextIsBound(t, starts, s);
    n := WalkOf(t, s, NextOf(starts, s, t.end));
  }

  // ----- the merge ---------------------------------------------------------------------------

  ghost predicate Ordered(rs: seq<Range>) {
    && (forall i :: 0 <= i < |rs| ==> rs[i].0 < rs[i].1)
    && forall i, j :: 0 <= i < j < |rs| ==> rs[i].0 < rs[j].0
  }

  ghost predicate Apart(rs: seq<Range>) {
    forall i, j :: 0 <= i < j < |rs| ==> rs[i].1 <= rs[j].0
  }

  ghost predicate Covers(rs: seq<Range>, a: nat) {
    exists i :: 0 <= i < |rs| && rs[i].0 <= a < rs[i].1
  }

  ghost predicate HasStart(rs: seq<Range>, a: nat) {
    exists i :: 0 <= i < |rs| && rs[i].0 == a
  }

  ghost predicate Holds(rs: seq<Range>, r: Range) {
    exists i :: 0 <= i < |rs| && rs[i].0 <= r.0 && r.1 <= rs[i].1
  }

  /** Sorted disjoint ranges covering the same addresses, each beginning where some range
      did, with no range split; and nothing changed if nothing overlapped. */
  ghost predicate Merged(rs: seq<Range>, out: seq<Range>) {
    && Ordered(out) && Apart(out)
    && (forall a: nat :: Covers(rs, a) <==> Covers(out, a))
    && (forall i :: 0 <= i < |out| ==> HasStart(rs, out[i].0))
    && (forall i :: 0 <= i < |rs| ==> Holds(out, rs[i]))
    && (Apart(rs) ==> out == rs)
  }

  function MergeOne(out: seq<Range>, r: Range): seq<Range> {
    if out != [] && r.0 < out[|out| - 1].1 then
      var last := out[|out| - 1];
      out[|out| - 1 := (last.0, if r.1 > last.1 then r.1 else last.1)]
    else out + [r]
  }

  ghost predicate StartsBefore(out: seq<Range>, a: nat) {
    forall i :: 0 <= i < |out| ==> out[i].0 < a
  }

  lemma MergeKeepsOrder(out: seq<Range>, r: Range)
    requires Ordered(out) && Apart(out) && StartsBefore(out, r.0) && r.0 < r.1
    ensures var next := MergeOne(out, r); Ordered(next) && Apart(next)
  {
  }

  lemma MergeKeepsCover(out: seq<Range>, r: Range, a: nat)
    requires Ordered(out) && StartsBefore(out, r.0)
    ensures Covers(MergeOne(out, r), a) <==> Covers(out, a) || r.0 <= a < r.1
  {
    var next := MergeOne(out, r);
    if Covers(out, a) {
      var i :| 0 <= i < |out| && out[i].0 <= a < out[i].1;
      assert next[i].0 <= a < next[i].1;
    }
    if r.0 <= a < r.1 {
      assert next[|next| - 1].0 <= a < next[|next| - 1].1;
    }
  }

  lemma MergeKeepsHeld(out: seq<Range>, r: Range, x: Range)
    requires Ordered(out) && StartsBefore(out, r.0) && (x == r || Holds(out, x))
    ensures Holds(MergeOne(out, r), x)
  {
    var next := MergeOne(out, r);
    if x == r {
      assert next[|next| - 1].0 <= r.0 && r.1 <= next[|next| - 1].1;
    } else {
      var i :| 0 <= i < |out| && out[i].0 <= x.0 && x.1 <= out[i].1;
      assert next[i].0 <= x.0 && x.1 <= next[i].1;
    }
  }

  lemma CoversMore(rs: seq<Range>, r: Range, a: nat)
    ensures Covers(rs + [r], a) <==> Covers(rs, a) || r.0 <= a < r.1
  {
    if Covers(rs, a) {
      var i :| 0 <= i < |rs| && rs[i].0 <= a < rs[i].1;
      assert (rs + [r])[i] == rs[i];
    }
    if r.0 <= a < r.1 { assert (rs + [r])[|rs|] == r; }
  }

  lemma StartsMore(rs: seq<Range>, r: Range, a: nat)
    requires HasStart(rs, a) || a == r.0
    ensures HasStart(rs + [r], a)
  {
    if HasStart(rs, a) {
      var i :| 0 <= i < |rs| && rs[i].0 == a;
      assert (rs + [r])[i].0 == a;
    } else {
      assert (rs + [r])[|rs|].0 == a;
    }
  }

  /** One turn of the merge keeps all of it. */
  lemma MergeStep(rs: seq<Range>, out: seq<Range>, r: Range)
    requires Ordered(rs + [r]) && Merged(rs, out) && StartsBefore(out, r.0)
    ensures Merged(rs + [r], MergeOne(out, r))
  {
    hide Covers, Holds, HasStart;
    var all, next := rs + [r], MergeOne(out, r);
    assert all[|rs|] == r;
    MergeKeepsOrder(out, r);
    forall a: nat ensures Covers(all, a) <==> Covers(next, a) {
      CoversMore(rs, r, a);
      MergeKeepsCover(out, r, a);
    }
    forall i | 0 <= i < |next| ensures HasStart(all, next[i].0) {
      StartsMore(rs, r, next[i].0);
    }
    forall i | 0 <= i < |all| ensures Holds(next, all[i]) {
      assert i < |rs| ==> all[i] == rs[i];
      MergeKeepsHeld(out, r, all[i]);
    }
    if Apart(all) { ApartFront(rs, r); }
  }

  lemma ApartFront(rs: seq<Range>, r: Range)
    requires Apart(rs + [r])
    ensures Apart(rs) && (rs != [] ==> rs[|rs| - 1].1 <= r.0)
  {
    forall i, j | 0 <= i < j < |rs| ensures rs[i].1 <= rs[j].0 {
      assert (rs + [r])[i] == rs[i] && (rs + [r])[j] == rs[j];
    }
    if rs != [] { assert (rs + [r])[|rs| - 1] == rs[|rs| - 1] && (rs + [r])[|rs|] == r; }
  }

  lemma StartsFollow(rs: seq<Range>, out: seq<Range>, i: nat)
    requires Ordered(rs) && i < |rs| && Merged(rs[..i], out)
    ensures StartsBefore(out, rs[i].0)
  {
    hide Covers, Holds;
    forall k | 0 <= k < |out| ensures out[k].0 < rs[i].0 {
      assert HasStart(rs[..i], out[k].0);
    }
  }

  method MergeRanges(rs: seq<Range>) returns (cleaned: seq<Range>)
    requires Ordered(rs)
    ensures Merged(rs, cleaned)
  {
    hide Merged;
    cleaned := [];
    NothingMerged();
    for i := 0 to |rs|
      invariant Merged(rs[..i], cleaned)
    {
      assert rs[..i + 1] == rs[..i] + [rs[i]];
      StartsFollow(rs, cleaned, i);
      OrderedFront(rs, i + 1);
      MergeStep(rs[..i], cleaned, rs[i]);
      var (s, e) := rs[i];
      if cleaned != [] && s < cleaned[|cleaned| - 1].1 {
        var (ps, pe) := cleaned[|cleaned| - 1];
        cleaned := cleaned[|cleaned| - 1 := (ps, if e > pe then e else pe)];
      } else {
        cleaned := cleaned + [(s, e)];
      }
    }
    assert rs[..|rs|] == rs;
  }

  lemma NothingMerged()
    ensures Merged([], [])
  {
  }

  lemma OrderedFront(rs: seq<Range>, n: nat)
    requires Ordered(rs) && n <= |rs|
    ensures Ordered(rs[..n])
  {
  }

  // ----- the whole detection --------------------------------------------------------------------

  lemma {:induction false} RangesOrdered(t: Text, starts: seq<nat>, sized: map<nat, nat>, n: nat)
    requires n <= |starts| && Ascending(starts)
    ensures Ordered(AllRanges(t, starts, sized, n))
    ensures forall r :: r in AllRanges(t, starts, sized, n) ==> exists k :: 0 <= k < n && starts[k] == r.0
    decreases n
  {
    hide EndOf;
    if n > 0 { RangesOrdered(t, starts, sized, n - 1); }
  }

  method DetectFunctions(t: Text, seeds: set<nat>, sized: map<nat, nat>) returns (cleaned: seq<Range>, starts: seq<nat>)
    ensures Lists(starts, seeds) && Merged(AllRanges(t, starts, sized, |starts|), cleaned)
  {
    hide Merged, NextOf;
    starts := Sorted(seeds);
    var funcs: seq<Range> := [];
    for n := 0 to |starts|
      invariant funcs == AllRanges(t, starts, sized, n)
    {
      var start := starts[n];
      var end: nat;
      if start in sized {
        end := sized[start];
      } else {
        end := FindEnd(t, starts, start);
      }
      if end > start { funcs := funcs + [(start, end)]; }
    }
    RangesOrdered(t, starts, sized, |starts|);
    cleaned := MergeRanges(funcs);
  }

  // ----- aligned seeds without sized symbols -------------------------------------------------------

  ghost predicate AllInside(t: Text, seeds: set<nat>) {
    forall a :: a in seeds ==> Inside(t, a) && a % 4 == 0
  }

  lemma {:induction false} EndInRange(t: Text, pc: nat, next: nat)
    requires Decoded(t) && pc < t.end && pc < next && (next % 4 == pc % 4 || next == t.end)
    ensures pc < EndFrom(t, pc, next) <= Least(next, t.end)
    decreases next - pc
  {
    if pc in t.stops && !t.stops[pc] && pc + 4 < next && pc + 4 < t.end {
      EndInRange(t, pc + 4, next);
    }
  }

  lemma {:induction false} NextFollows(starts: seq<nat>, k: nat, end: nat)
    requires Ascending(starts) && k < |starts|
    ensures NextOf(starts, starts[k], end) == if k + 1 < |starts| then starts[k + 1] else end
    decreases k
  {
    if k > 0 {
      assert starts[1..][k - 1] == starts[k];
      NextFollows(starts[1..], k - 1, end);
    } else if |starts| > 1 {
      assert starts[1..][0] == starts[1];
    }
  }

  /** The end found for the k-th start: after it, and not past the next start or the segment. */
  lemma AlignedEnd(t: Text, starts: seq<nat>, seeds: set<nat>, k: nat)
    requires Decoded(t) && Lists(starts, seeds) && AllInside(t, seeds) && k < |starts|
    ensures t.start <= starts[k] < EndOf(t, starts, map[], starts[k]) <= t.end
    ensures k + 1 < |starts| ==> EndOf(t, starts, map[], starts[k]) <= starts[k + 1]
  {
    hide NextOf, EndFrom;
    NextFollows(starts, k, t.end);
    assert starts[k] in seeds;
    if k + 1 < |starts| { assert starts[k + 1] in seeds; }
    EndInRange(t, starts[k], NextOf(starts, starts[k], t.end));
  }

  lemma {:induction false} AlignedRanges(t: Text, starts: seq<nat>, seeds: set<nat>, n: nat)
    requires Decoded(t) && Lists(starts, seeds) && AllInside(t, seeds) && n <= |starts|
    ensures var rs := AllRanges(t, starts, map[], n);
      |rs| == n && forall k :: 0 <= k < n ==> rs[k] == (starts[k], EndOf(t, starts, map[], starts[k]))
    decreases n
  {
    hide EndOf, Lists, Decoded, AllInside;
    if n > 0 {
      AlignedRanges(t, starts, seeds, n - 1);
      AlignedEnd(t, starts, seeds, n - 1);
    }
  }

  lemma AlignedApart(t: Text, starts: seq<nat>, seeds: set<nat>)
    requires Decoded(t) && Lists(starts, seeds) && AllInside(t, seeds)
    ensures Apart(AllRanges(t, starts, map[], |starts|))
  {
    hide EndOf, Decoded, AllInside, AllRanges;
    AlignedRanges(t, starts, seeds, |starts|);
    var rs := AllRanges(t, starts, map[], |starts|);
    forall i, j | 0 <= i < j < |rs| ensures rs[i].1 <= rs[j].0 {
      AlignedEnd(t, starts, seeds, i);
      assert i + 1 < j ==> starts[i + 1] < starts[j];
    }
  }

  lemma StartsAreSeeds(t: Text, starts: seq<nat>, seeds: set<nat>, rs: seq<Range>, a: nat)
    requires Lists(starts, seeds) && |rs| == |starts| && forall k :: 0 <= k < |rs| ==> rs[k].0 == starts[k]
    ensures HasStart(rs, a) <==> a in seeds
  {
    if a in seeds {
      var k :| 0 <= k < |starts| && starts[k] == a;
      assert rs[k].0 == a;
    }
    if HasStart(rs, a) {
      var k :| 0 <= k < |rs| && rs[k].0 == a;
      assert starts[k] in seeds;
    }
  }

  /** With aligned seeds and no sized symbols the ranges are disjoint, inside the segment,
      and start at exactly the seeds. */
  lemma AlignedDetection(t: Text, starts: seq<nat>, seeds: set<nat>, cleaned: seq<Range>)
    requires Decoded(t) && Lists(starts, seeds) && AllInside(t, seeds)
    requires Merged(AllRanges(t, starts, map[], |starts|), cleaned)
    ensures Apart(cleaned) && (forall i :: 0 <= i < |cleaned| ==> t.start <= cleaned[i].0 < cleaned[i].1 <= t.end)
    ensures forall a :: HasStart(cleaned, a) <==> a in seeds
  {
    hide EndOf, AllRanges, Lists, Decoded, AllInside, HasStart, Covers, Holds;
    AlignedRanges(t, starts, seeds, |starts|);
    AlignedApart(t, starts, seeds);
    assert cleaned == AllRanges(t, starts, map[], |starts|);
    forall a ensures HasStart(cleaned, a) <==> a in seeds {
      StartsAreSeeds(t, starts, seeds, cleaned, a);
    }
    forall i | 0 <= i < |cleaned| ensures t.start <= cleaned[i].0 < cleaned[i].1 <= t.end {
      AlignedEnd(t, starts, seeds, i);
    }
  }

  /** Exactly the entry, symbols and branch targets in the segment are seeds, and the hints
      in it that are aligned and decoded; the segment's start if there is none of them. */
  lemma SeedsAre(t: Text, entry: nat, symbols: set<nat>, branches: set<nat>, hints: set<nat>, a: nat)
    ensures var good := (set x | x in {entry} + symbols + branches + hints && t.start <= x < t.end
                                  && (x == entry || x in symbols || x in branches || (x % 4 == 0 && x in t.stops)));
      a in Seeds(t, entry, symbols, branches, hints) <==> a in good || (good == {} && a == t.start)
  {
    var good := (set x | x in {entry} + symbols + branches + hints && t.start <= x < t.end
                         && (x == entry || x in symbols || x in branches || (x % 4 == 0 && x in t.stops)));
    assert good == (set x | x in {entry} + symbols + branches && Inside(t, x))
                   + set x | x in hints && Inside(t, x) && x % 4 == 0 && x in t.stops;
  }

  /** Seeds gathered from an aligned entry, aligned symbols and aligned branch targets meet
      what the detection asks; hints are checked one by one. */
  lemma SeedsAreAligned(t: Text, entry: nat, symbols: set<nat>, branches: set<nat>, hints: set<nat>)
    requires t.start < t.end && t.start % 4 == 0 && forall a :: a in {entry} + symbols + branches ==> a % 4 == 0
    ensures AllInside(t, Seeds(t, entry, symbols, branches, hints))
    ensures forall a :: a in {entry} + symbols + branches && Inside(t, a) ==> a in Seeds(t, entry, symbols, branches, hints)
  {
  }
}
