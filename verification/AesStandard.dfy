/**
 The cipher and its key expansion as FIPS 197 states them (sections 5.1 and 5.2), by rows
 and columns, without the functions the implementation follows.
 */
module AesStandard {
  import opened AesField
  import opened AesSbox
  import opened AesMix
  import opened Aes

  /** Row r of column c of a block. */
  function Cell(st: Block, r: nat, c: nat): bv8
    requires r < 4 && c < 4
  {
    st[r + 4 * c]
  }

  /** Section 5.1.4: column c is added word 4 * rnd + c of the schedule. */
  ghost predicate AddsKey(w: seq<seq<bv8>>, rnd: nat, a: Block, b: Block)
    requires IsSchedule(w) && rnd <= 10
  {
    forall r, c :: 0 <= r < 4 && 0 <= c < 4 ==> Cell(b, r, c) == Xor(Cell(a, r, c), w[4 * rnd + c][r])
  }

  /** Section 5.1.1: every byte is looked up. */
  ghost predicate Substitutes(sbox: seq<bv8>, a: Block, b: Block)
    requires |sbox| == 256
  {
    forall i :: 0 <= i < 16 ==> b[i] == Sub(sbox, a[i])
  }

  /** Section 5.1.2: row r takes its bytes from r columns to the right. */
  ghost predicate ShiftsRows(a: Block, b: Block) {
    forall r, c :: 0 <= r < 4 && 0 <= c < 4 ==> Cell(b, r, c) == Cell(a, r, (c + r) % 4)
  }

  /** Coefficient k of {03}x^3 + {01}x^2 + {01}x + {02}. */
  function Coefficient(k: nat): bv8
    requires k < 4
  {
    if k == 0 then 2 else if k == 3 then 3 else 1
  }

  /** Coefficient r of the product of that polynomial with column c, modulo x^4 + 1. */
  function Product(a: Block, r: nat, c: nat): bv8
    requires r < 4 && c < 4
  {
    Xor(Xor(Mul(Coefficient(r), Cell(a, 0, c)), Mul(Coefficient((r + 3) % 4), Cell(a, 1, c))),
        Xor(Mul(Coefficient((r + 2) % 4), Cell(a, 2, c)), Mul(Coefficient((r + 1) % 4), Cell(a, 3, c))))
  }

  /** Section 5.1.3. */
  ghost predicate MixesColumns(a: Block, b: Block) {
    forall r, c :: 0 <= r < 4 && 0 <= c < 4 ==> Cell(b, r, c) == Product(a, r, c)
  }

  /** A full round: through the states after the lookup, the shift and the mix. */
  ghost predicate FullRound(sbox: seq<bv8>, w: seq<seq<bv8>>, rnd: nat, a: Block, b: Block)
    requires |sbox| == 256 && IsSchedule(w) && rnd <= 10
  {
    exists s: Block, t: Block, u: Block ::
      Substitutes(sbox, a, s) && ShiftsRows(s, t) && MixesColumns(t, u) && AddsKey(w, rnd, u, b)
  }

  /** The last round does not mix. */
  ghost predicate LastRound(sbox: seq<bv8>, w: seq<seq<bv8>>, a: Block, b: Block)
    requires |sbox| == 256 && IsSchedule(w)
  {
    exists s: Block, t: Block :: Substitutes(sbox, a, s) && ShiftsRows(s, t) && AddsKey(w, 10, t, b)
  }

  /** The states of an encryption: after the initial key, nine full rounds, and the last. */
  ghost predicate Trace(sbox: seq<bv8>, w: seq<seq<bv8>>, block: Block, states: seq<Block>)
    requires |sbox| == 256 && IsSchedule(w)
  {
    && |states| == 11 && AddsKey(w, 0, block, states[0])
    && (forall n :: 1 <= n < 10 ==> FullRound(sbox, w, n, states[n - 1], states[n]))
    && LastRound(sbox, w, states[9], states[10])
  }

  /** The block encrypts to this one by the standard (figure 5). */
  ghost predicate EncryptsTo(sbox: seq<bv8>, w: seq<seq<bv8>>, block: Block, out: Block)
    requires |sbox| == 256 && IsSchedule(w)
  {
    exists states :: Trace(sbox, w, block, states) && states[10] == out
  }

  // ----- the implementation's steps are the standard's --------------------------------------

  lemma KeyIsAdded(w: seq<seq<bv8>>, rnd: nat, st: Block)
    requires IsSchedule(w) && rnd <= 10
    ensures AddsKey(w, rnd, st, AddKey(w, rnd, st))
  {
    hide Xor;
    forall r, c | 0 <= r < 4 && 0 <= c < 4
      ensures Cell(AddKey(w, rnd, st), r, c) == Xor(Cell(st, r, c), w[4 * rnd + c][r])
    {
      RowAndColumn(r, c);
    }
  }

  lemma RowsAreShifted(st: Block)
    ensures ShiftsRows(st, ShiftRows(st))
  {
    hide Source;
    forall r, c | 0 <= r < 4 && 0 <= c < 4 ensures Cell(ShiftRows(st), r, c) == Cell(st, r, (c + r) % 4) {
      PlaceAt(r, c);
      assert Turn(c, r) == (c + r) % 4;
    }
  }

  /** Two and three times a byte. */
  lemma SmallProducts(a: bv8)
    ensures Mul(1, a) == a && Mul(2, a) == XTime(a) && Mul(3, a) == Xor(XTime(a), a)
  {
    hide Sum, XTime, Xor;
    ProductOfOne(a);
    SumXLeft(1, a, 8);
    SumAddsLeft(2, 1, a, 8);
    TwoAndThree();
  }

  lemma TwoAndThree()
    ensures XTime(1) == 2 && Xor(2, 1) == 3
  {
  }

  lemma ColumnIsProduct(st: Block, c: nat)
    requires c < 4
    ensures Mix(ColumnOf(st, c)) == Column(Product(st, 0, c), Product(st, 1, c), Product(st, 2, c), Product(st, 3, c))
  {
    hide Mul, XTime, Xor;
    var x := ColumnOf(st, c);
    SmallProducts(x.a);
    SmallProducts(x.b);
    SmallProducts(x.c);
    SmallProducts(x.d);
    Regroup(XTime(x.a), Xor(XTime(x.b), x.b), x.c, x.d);
    Regroup(x.a, XTime(x.b), Xor(XTime(x.c), x.c), x.d);
    Regroup(x.a, x.b, XTime(x.c), Xor(XTime(x.d), x.d));
    Regroup(Xor(XTime(x.a), x.a), x.b, x.c, XTime(x.d));
  }

  lemma Regroup(a: bv8, b: bv8, c: bv8, d: bv8)
    ensures Sum4(a, b, c, d) == Xor(Xor(a, b), Xor(c, d))
  {
    hide Xor;
    XorLaws(Xor(a, b), c, d);
  }

  lemma ColumnsAreMixed(st: Block)
    ensures MixesColumns(st, MixAll(st))
  {
    hide Mix, MixAll, Product;
    forall r, c | 0 <= r < 4 && 0 <= c < 4 ensures Cell(MixAll(st), r, c) == Product(st, r, c) {
      ColumnsMix(st, c);
      ColumnIsProduct(st, c);
    }
  }

  lemma RoundIsFull(sbox: seq<bv8>, w: seq<seq<bv8>>, rnd: nat, st: Block)
    requires |sbox| == 256 && IsSchedule(w) && rnd <= 10
    ensures FullRound(sbox, w, rnd, st, Round(sbox, w, rnd, st))
  {
    hide AddsKey, ShiftsRows, MixesColumns, ShiftRows, MixAll, AddKey, IsSchedule, Sub;
    var s := SubAll(sbox, st);
    assert Substitutes(sbox, st, s);
    RowsAreShifted(s);
    ColumnsAreMixed(ShiftRows(s));
    KeyIsAdded(w, rnd, MixAll(ShiftRows(s)));
  }

  lemma EndIsLast(sbox: seq<bv8>, w: seq<seq<bv8>>, st: Block)
    requires |sbox| == 256 && IsSchedule(w)
    ensures LastRound(sbox, w, st, AddKey(w, 10, ShiftRows(SubAll(sbox, st))))
  {
    hide AddsKey, ShiftsRows, ShiftRows, AddKey, IsSchedule, Sub;
    var s := SubAll(sbox, st);
    assert Substitutes(sbox, st, s);
    RowsAreShifted(s);
    KeyIsAdded(w, 10, ShiftRows(s));
  }

  function StateAfter(sbox: seq<bv8>, w: seq<seq<bv8>>, block: Block, n: nat): Block
    requires |sbox| == 256 && IsSchedule(w) && n <= 10
  {
    if n < 10 then Rounds(sbox, w, n, block) else Encrypt(sbox, w, block)
  }

  /** The cipher is the standard's. */
  lemma EncryptionIsStandard(sbox: seq<bv8>, w: seq<seq<bv8>>, block: Block)
    requires |sbox| == 256 && IsSchedule(w)
    ensures EncryptsTo(sbox, w, block, Encrypt(sbox, w, block))
  {
    hide AddsKey, AddKey, SubAll, ShiftRows, FullRound, LastRound, Round, IsSchedule;
    var states: seq<Block> := seq(11, n requires 0 <= n < 11 => StateAfter(sbox, w, block, n));
    KeyIsAdded(w, 0, block);
    forall n | 1 <= n < 10 ensures FullRound(sbox, w, n, states[n - 1], states[n]) {
      RoundIsFull(sbox, w, n, states[n - 1]);
    }
    EndIsLast(sbox, w, states[9]);
    assert Trace(sbox, w, block, states);
  }

  // ----- the key expansion ------------------------------------------------------------------

  /** The round constants, the powers of x from x^0 (section 5.2). */
  function RoundConstant(k: nat): bv8
    requires 1 <= k <= 10
  {
    if k == 1 then 0x01 else if k == 2 then 0x02 else if k == 3 then 0x04 else if k == 4 then 0x08
    else if k == 5 then 0x10 else if k == 6 then 0x20 else if k == 7 then 0x40 else if k == 8 then 0x80
    else if k == 9 then 0x1B else 0x36
  }

  /** Byte j of the first words is the key's; that of a later word is the one four words back
      plus the last word's, which at every fourth word is turned by one, looked up and has the
      round constant added to its first byte. */
  ghost predicate KeyByteIs(sbox: seq<bv8>, key: Block, w: seq<seq<bv8>>, i: nat, j: nat)
    requires |sbox| == 256 && IsSchedule(w) && i < 44 && j < 4
  {
    if i < 4 then w[i][j] == key[4 * i + j]
    else if i % 4 != 0 then w[i][j] == Xor(w[i - 4][j], w[i - 1][j])
    else if j == 0 then w[i][j] == Xor(w[i - 4][0], Xor(Sub(sbox, w[i - 1][1]), RoundConstant(i / 4)))
    else w[i][j] == Xor(w[i - 4][j], Sub(sbox, w[i - 1][(j + 1) % 4]))
  }

  ghost predicate IsExpansion(sbox: seq<bv8>, key: Block, w: seq<seq<bv8>>)
    requires |sbox| == 256
  {
    IsSchedule(w) && forall i, j {:trigger KeyByteIs(sbox, key, w, i, j)} :: 0 <= i < 44 && 0 <= j < 4 ==> KeyByteIs(sbox, key, w, i, j)
  }

  lemma Constants()
    ensures forall k :: 1 <= k <= 10 ==> RoundConstant(k) == XTimes(1, k - 1)
  {
    assert XTimes(1, 0) == 0x01 && XTimes(1, 1) == 0x02 && XTimes(1, 2) == 0x04 && XTimes(1, 3) == 0x08;
    assert XTimes(1, 4) == 0x10 && XTimes(1, 5) == 0x20 && XTimes(1, 6) == 0x40 && XTimes(1, 7) == 0x80;
    assert XTimes(1, 8) == 0x1B && XTimes(1, 9) == 0x36;
  }
}
