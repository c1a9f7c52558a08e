/**
 The AES-128 encryption of one block in place (FIPS 197, section 5.1) and its key
 expansion (section 5.2). For every key schedule the encryption is a permutation of the
 blocks.
 */
module Aes {
  import opened AesField
  import opened AesSbox
  import opened AesMix

  /** Sixteen bytes; row r of column c stands at r + 4 * c. */
  type Block = s: seq<bv8> | |s| == 16 witness [0, 0, 0, 0, 0, 0, 0, 0, 0, 0, 0, 0, 0, 0, 0, 0]

  ghost predicate IsSchedule(w: seq<seq<bv8>>) {
    |w| == 44 && forall i :: 0 <= i < 44 ==> |w[i]| == 4
  }

  // ----- the steps on blocks ---------------------------------------------------------------

  function KeyByte(w: seq<seq<bv8>>, rnd: nat, i: nat): bv8
    requires IsSchedule(w) && rnd <= 10 && i < 16
  {
    w[rnd * 4 + i / 4][i % 4]
  }

  function AddKey(w: seq<seq<bv8>>, rnd: nat, st: Block): Block
    requires IsSchedule(w) && rnd <= 10
  {
    seq(16, i requires 0 <= i < 16 => Xor(st[i], KeyByte(w, rnd, i)))
  }

  function SubAll(sbox: seq<bv8>, st: Block): Block
    requires |sbox| == 256
  {
    seq(16, i requires 0 <= i < 16 => Sub(sbox, st[i]))
  }

  /** The column n places to the right of c, around the end. */
  function Turn(c: nat, n: nat): nat
    requires c < 4 && n <= 4
  {
    if c + n < 4 then c + n else c + n - 4
  }

  /** Row r turns left by r places. */
  function Source(i: nat): nat
    requires i < 16
  {
    i % 4 + 4 * Turn(i / 4, i % 4)
  }

  function ShiftRows(st: Block): Block {
    seq(16, i requires 0 <= i < 16 => st[Source(i)])
  }

  function ColumnOf(st: Block, c: nat): Column
    requires c < 4
  {
    Column(st[4 * c], st[4 * c + 1], st[4 * c + 2], st[4 * c + 3])
  }

  function Bytes4(x: Column): seq<bv8> {
    [x.a, x.b, x.c, x.d]
  }

  function MixAll(st: Block): Block {
    Joined(Mix(ColumnOf(st, 0)), Mix(ColumnOf(st, 1)), Mix(ColumnOf(st, 2)), Mix(ColumnOf(st, 3)))
  }

  function Round(sbox: seq<bv8>, w: seq<seq<bv8>>, rnd: nat, st: Block): Block
    requires |sbox| == 256 && IsSchedule(w) && rnd <= 10
  {
    AddKey(w, rnd, MixAll(ShiftRows(SubAll(sbox, st))))
  }

  /** The state after the first n full rounds. */
  function Rounds(sbox: seq<bv8>, w: seq<seq<bv8>>, n: nat, block: Block): Block
    requires |sbox| == 256 && IsSchedule(w) && n <= 10
  {
    if n == 0 then AddKey(w, 0, block) else Round(sbox, w, n, Rounds(sbox, w, n - 1, block))
  }

  function Encrypt(sbox: seq<bv8>, w: seq<seq<bv8>>, block: Block): Block
    requires |sbox| == 256 && IsSchedule(w)
  {
    AddKey(w, 10, ShiftRows(SubAll(sbox, Rounds(sbox, w, 9, block))))
  }

  // ----- their inverses ---------------------------------------------------------------------

  ghost function UnsubAll(st: Block): Block {
    seq(16, i requires 0 <= i < 16 => Preimage(st[i]))
  }

  function Target(i: nat): nat
    requires i < 16
  {
    i % 4 + 4 * Turn(i / 4, 4 - i % 4)
  }

  function UnshiftRows(st: Block): Block {
    seq(16, i requires 0 <= i < 16 => st[Target(i)])
  }

  function UnmixAll(st: Block): Block {
    MixAll(MixAll(MixAll(st)))
  }

  ghost function Unround(w: seq<seq<bv8>>, rnd: nat, st: Block): Block
    requires IsSchedule(w) && rnd <= 10
  {
    UnsubAll(UnshiftRows(UnmixAll(AddKey(w, rnd, st))))
  }

  ghost function Unrounds(w: seq<seq<bv8>>, n: nat, st: Block): Block
    requires IsSchedule(w) && n <= 10
  {
    if n == 0 then AddKey(w, 0, st) else Unrounds(w, n - 1, Unround(w, n, st))
  }

  /** The decryption the repository does not need: the inverse steps in reverse. */
  ghost function Decrypt(w: seq<seq<bv8>>, block: Block): Block
    requires IsSchedule(w)
  {
    Unrounds(w, 9, UnsubAll(UnshiftRows(AddKey(w, 10, block))))
  }

  lemma AddKeyTwice(w: seq<seq<bv8>>, rnd: nat, st: Block)
    requires IsSchedule(w) && rnd <= 10
    ensures AddKey(w, rnd, AddKey(w, rnd, st)) == st
  {
    hide Xor, KeyByte;
    forall i | 0 <= i < 16 ensures AddKey(w, rnd, AddKey(w, rnd, st))[i] == st[i] {
      var k := KeyByte(w, rnd, i);
      XorLaws(st[i], k, k);
      XorLaws(k, 0, 0);
    }
  }

  lemma SubsUndo(sbox: seq<bv8>, st: Block)
    requires IsSbox(sbox)
    ensures UnsubAll(SubAll(sbox, st)) == st && SubAll(sbox, UnsubAll(st)) == st
  {
    hide Sub, Preimage, IsSbox;
    SboxSize(sbox);
    forall i | 0 <= i < 16
      ensures UnsubAll(SubAll(sbox, st))[i] == st[i] && SubAll(sbox, UnsubAll(st))[i] == st[i]
    {
      SboxIsPermutation(sbox, st[i]);
    }
  }

  lemma RowAndColumn(r: nat, c: nat)
    requires r < 4 && c < 4
    ensures (r + 4 * c) / 4 == c && (r + 4 * c) % 4 == r
  {
  }

  lemma TurnsUndo(r: nat, c: nat)
    requires r < 4 && c < 4
    ensures Turn(c, r) < 4 && Turn(c, 4 - r) < 4
    ensures Turn(Turn(c, r), 4 - r) == c && Turn(Turn(c, 4 - r), r) == c
  {
  }

  lemma PlaceAt(r: nat, c: nat)
    requires r < 4 && c < 4
    ensures r + 4 * c < 16
    ensures Source(r + 4 * c) == r + 4 * Turn(c, r) && Target(r + 4 * c) == r + 4 * Turn(c, 4 - r)
  {
    RowAndColumn(r, c);
  }

  lemma PlacesUndo(i: nat)
    requires i < 16
    ensures Source(i) < 16 && Target(i) < 16 && Source(Target(i)) == i && Target(Source(i)) == i
  {
    hide Source, Target;
    var r, c := i % 4, i / 4;
    PlaceAt(r, c);
    TurnsUndo(r, c);
    PlaceAt(r, Turn(c, r));
    PlaceAt(r, Turn(c, 4 - r));
  }

  lemma ShiftsUndo(st: Block)
    ensures UnshiftRows(ShiftRows(st)) == st && ShiftRows(UnshiftRows(st)) == st
  {
    hide Source, Target;
    forall i | 0 <= i < 16
      ensures UnshiftRows(ShiftRows(st))[i] == st[i] && ShiftRows(UnshiftRows(st))[i] == st[i]
    {
      PlacesUndo(i);
    }
  }

  function Joined(x: Column, y: Column, z: Column, u: Column): Block {
    Bytes4(x) + Bytes4(y) + Bytes4(z) + Bytes4(u)
  }

  lemma JoinedColumns(x: Column, y: Column, z: Column, u: Column)
    ensures var st := Joined(x, y, z, u);
      ColumnOf(st, 0) == x && ColumnOf(st, 1) == y && ColumnOf(st, 2) == z && ColumnOf(st, 3) == u
  {
  }

  lemma ColumnsMix(st: Block, c: nat)
    requires c < 4
    ensures ColumnOf(MixAll(st), c) == Mix(ColumnOf(st, c))
  {
    hide Mix, Joined, ColumnOf;
    JoinedColumns(Mix(ColumnOf(st, 0)), Mix(ColumnOf(st, 1)), Mix(ColumnOf(st, 2)), Mix(ColumnOf(st, 3)));
  }

  lemma SameColumns(a: Block, b: Block)
    requires forall c :: 0 <= c < 4 ==> ColumnOf(a, c) == ColumnOf(b, c)
    ensures a == b
  {
    assert ColumnOf(a, 0) == ColumnOf(b, 0) && ColumnOf(a, 1) == ColumnOf(b, 1);
    assert ColumnOf(a, 2) == ColumnOf(b, 2) && ColumnOf(a, 3) == ColumnOf(b, 3);
    forall i | 0 <= i < 16 ensures a[i] == b[i] {
      assert i < 4 || 4 <= i < 8 || 8 <= i < 12 || 12 <= i;
    }
  }

  lemma MixesUndo(st: Block)
    ensures MixAll(MixAll(MixAll(MixAll(st)))) == st
  {
    hide MixAll, Mix, ColumnOf;
    var s1 := MixAll(st);
    var s2 := MixAll(s1);
    var s3 := MixAll(s2);
    forall c | 0 <= c < 4 ensures ColumnOf(MixAll(s3), c) == ColumnOf(st, c) {
      ColumnsMix(st, c);
      ColumnsMix(s1, c);
      ColumnsMix(s2, c);
      ColumnsMix(s3, c);
      MixFourTimes(ColumnOf(st, c));
    }
    SameColumns(MixAll(s3), st);
  }

  lemma RoundUndone(sbox: seq<bv8>, w: seq<seq<bv8>>, rnd: nat, st: Block)
    requires IsSbox(sbox) && IsSchedule(w) && rnd <= 10
    ensures Unround(w, rnd, Round(sbox, w, rnd, st)) == st && Round(sbox, w, rnd, Unround(w, rnd, st)) == st
  {
    hide AddKey, SubAll, UnsubAll, ShiftRows, UnshiftRows, MixAll, IsSbox, IsSchedule;
    SboxSize(sbox);
    var shifted := ShiftRows(SubAll(sbox, st));
    AddKeyTwice(w, rnd, MixAll(shifted));
    MixesUndo(shifted);
    ShiftsUndo(SubAll(sbox, st));
    SubsUndo(sbox, st);
    var keyed := AddKey(w, rnd, st);
    var unshifted := UnshiftRows(UnmixAll(keyed));
    SubsUndo(sbox, unshifted);
    ShiftsUndo(UnmixAll(keyed));
    MixesUndo(keyed);
    AddKeyTwice(w, rnd, st);
  }

  lemma SboxSize(sbox: seq<bv8>)
    requires IsSbox(sbox)
    ensures |sbox| == 256
  {
  }

  lemma {:induction false} RoundsUndone(sbox: seq<bv8>, w: seq<seq<bv8>>, n: nat, st: Block)
    requires IsSbox(sbox) && IsSchedule(w) && n <= 10
    ensures Unrounds(w, n, Rounds(sbox, w, n, st)) == st && Rounds(sbox, w, n, Unrounds(w, n, st)) == st
    decreases n
  {
    hide AddKey, Round, Unround, IsSbox, IsSchedule;
    SboxSize(sbox);
    if n == 0 {
      AddKeyTwice(w, 0, st);
    } else {
      RoundUndone(sbox, w, n, Rounds(sbox, w, n - 1, st));
      RoundsUndone(sbox, w, n - 1, st);
      RoundsUndone(sbox, w, n - 1, Unround(w, n, st));
      RoundUndone(sbox, w, n, st);
    }
  }

  /** Encryption under any key schedule is a permutation of the blocks. */
  lemma EncryptIsPermutation(sbox: seq<bv8>, w: seq<seq<bv8>>, block: Block)
    requires IsSbox(sbox) && IsSchedule(w)
    ensures Decrypt(w, Encrypt(sbox, w, block)) == block && Encrypt(sbox, w, Decrypt(w, block)) == block
  {
    hide AddKey, SubAll, UnsubAll, ShiftRows, UnshiftRows, Rounds, Unrounds, IsSbox, IsSchedule;
    SboxSize(sbox);
    var last := Rounds(sbox, w, 9, block);
    AddKeyTwice(w, 10, ShiftRows(SubAll(sbox, last)));
    ShiftsUndo(SubAll(sbox, last));
    SubsUndo(sbox, last);
    RoundsUndone(sbox, w, 9, block);
    var keyed := AddKey(w, 10, block);
    var first := UnsubAll(UnshiftRows(keyed));
    RoundsUndone(sbox, w, 9, first);
    SubsUndo(sbox, UnshiftRows(keyed));
    ShiftsUndo(keyed);
    AddKeyTwice(w, 10, block);
  }

  /** Different blocks stay different. */
  lemma EncryptIsInjective(sbox: seq<bv8>, w: seq<seq<bv8>>, a: Block, b: Block)
    requires IsSbox(sbox) && IsSchedule(w) && Encrypt(sbox, w, a) == Encrypt(sbox, w, b)
    ensures a == b
  {
    hide Encrypt, Decrypt, IsSbox;
    EncryptIsPermutation(sbox, w, a);
    EncryptIsPermutation(sbox, w, b);
  }
}
