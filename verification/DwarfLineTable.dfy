/** The finished line table and the lookup of an address in it. */
module DwarfLineTable {
  import opened Common
  import opened Bytes
  import opened DwarfLine

  /** Sorted as the table is built: by address, end markers after real rows. */
  ghost predicate Ordered(rows: seq<Row>) {
    forall i, j :: 0 <= i < j < |rows| ==>
      rows[i].addr < rows[j].addr || (rows[i].addr == rows[j].addr && (rows[i].file.None? ==> rows[j].file.None?))
  }

  /** How many rows a right bisection puts before the address. */
  method BisectRight(rows: seq<Row>, addr: nat) returns (n: nat)
    requires Ordered(rows)
    ensures n <= |rows|
    ensures forall k :: 0 <= k < n ==> rows[k].addr <= addr
    ensures forall k :: n <= k < |rows| ==> rows[k].addr > addr
  {
    var hi := |rows|;
    n := 0;
    while n < hi
      invariant n <= hi <= |rows|
      invariant forall k :: 0 <= k < n ==> rows[k].addr <= addr
      invariant forall k :: hi <= k < |rows| ==> rows[k].addr > addr
    {
      var mid := (n + hi) / 2;
      if addr < rows[mid].addr { hi := mid; } else { n := mid + 1; }
    }
  }

  /** The greatest address of the table that is not above the one asked for. */
  ghost predicate Covering(rows: seq<Row>, addr: nat, top: nat) {
    && top <= addr && (exists k :: 0 <= k < |rows| && rows[k].addr == top)
    && forall k :: 0 <= k < |rows| ==> !(top < rows[k].addr <= addr)
  }

  ghost predicate MarkedAt(rows: seq<Row>, addr: nat) {
    exists k :: 0 <= k < |rows| && rows[k].addr == addr && rows[k].file.None?
  }

  /** What a lookup answers: the last real row at the covering address, and nothing at all
      if an end marker shares that address. */
  ghost predicate Resolves(rows: seq<Row>, addr: nat, r: Option<Row>) {
    match r
    case None => forall top: nat :: Covering(rows, addr, top) ==> MarkedAt(rows, top)
    case Some(row) =>
      && Covering(rows, addr, row.addr) && !MarkedAt(rows, row.addr)
      && exists k :: 0 <= k < |rows| && rows[k] == row && forall j :: k < j < |rows| ==> rows[j].addr > addr
  }

  method Resolve(rows: seq<Row>, addr: nat) returns (r: Option<Row>)
    requires Ordered(rows)
    ensures Resolves(rows, addr, r)
  {
    var n := BisectRight(rows, addr);
    if n == 0 {
      NothingCovers(rows, addr);
      return None;
    }
    var i := n - 1;
    assert Covering(rows, addr, rows[i].addr) by { LastIsCovering(rows, addr, i); }
    if rows[i].file.None? {
      assert MarkedAt(rows, rows[i].addr);
      OneCovering(rows, addr, rows[i].addr);
      return None;
    }
    assert !MarkedAt(rows, rows[i].addr);
    return Some(rows[i]);
  }

  lemma LastIsCovering(rows: seq<Row>, addr: nat, i: nat)
    requires Ordered(rows) && i < |rows| && rows[i].addr <= addr
    requires forall k :: i < k < |rows| ==> rows[k].addr > addr
    ensures Covering(rows, addr, rows[i].addr)
  {
    forall k | 0 <= k < |rows| ensures !(rows[i].addr < rows[k].addr <= addr) {
      if k < i { assert rows[k].addr <= rows[i].addr; }
    }
  }

  lemma NothingCovers(rows: seq<Row>, addr: nat)
    requires forall k :: 0 <= k < |rows| ==> rows[k].addr > addr
    ensures forall top: nat :: !Covering(rows, addr, top)
  {
  }

  lemma OneCovering(rows: seq<Row>, addr: nat, top: nat)
    requires Covering(rows, addr, top)
    ensures forall other: nat :: Covering(rows, addr, other) ==> other == top
  {
    forall other: nat | Covering(rows, addr, other) ensures other == top {
      var j :| 0 <= j < |rows| && rows[j].addr == other;
      var k :| 0 <= k < |rows| && rows[k].addr == top;
      assert !(top < rows[j].addr <= addr) && !(other < rows[k].addr <= addr);
    }
  }

  ghost predicate RealAt(rows: seq<Row>, addr: nat) {
    exists k :: 0 <= k < |rows| && rows[k].addr == addr && rows[k].file.Some?
  }

  /** The comment on the sort promises that a real row wins over an end marker at its
      address. It wins there exactly when no marker has that address. */
  lemma RealRowWinsIff(rows: seq<Row>, addr: nat, r: Option<Row>)
    requires Ordered(rows) && RealAt(rows, addr) && Resolves(rows, addr, r)
    ensures (r.Some? && r.value.addr == addr && r.value.file.Some?) <==> !MarkedAt(rows, addr)
  {
    var k :| 0 <= k < |rows| && rows[k].addr == addr && rows[k].file.Some?;
    assert Covering(rows, addr, addr);
    OneCovering(rows, addr, addr);
    if r.Some? {
      var j :| 0 <= j < |rows| && rows[j] == r.value && forall i :: j < i < |rows| ==> rows[i].addr > addr;
      assert MarkedAt(rows, r.value.addr) || r.value.file.Some?;
    }
  }

  /** The smallest table where it does not win: one sequence that starts where another ends. */
  lemma AdjoiningSequencesLoseARow(r: Option<Row>)
    ensures var rows := [Row(16, Some([97]), 1), Row(20, Some([97]), 2), Row(20, None, 0), Row(24, None, 0)];
      Ordered(rows) && RealAt(rows, 20) && (Resolves(rows, 20, r) ==> r == None)
  {
    var rows := [Row(16, Some([97]), 1), Row(20, Some([97]), 2), Row(20, None, 0), Row(24, None, 0)];
    assert rows[1].addr == 20 && rows[1].file.Some? && rows[2].file.None?;
    assert MarkedAt(rows, 20);
    assert Covering(rows, 20, 20);
    OneCovering(rows, 20, 20);
  }
}
