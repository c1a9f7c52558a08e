/** The cipher as the extractor runs it: a 4 by 4 state changed in place, and the key
    expansion. */
module AesCipher {
  import opened AesField
  import opened AesSbox
  import opened AesMix
  import opened Aes
  import opened AesStandard

  /** The state is this block: row r, column c at r + 4 * c. */
  ghost predicate Shows(s: array2<bv8>, st: Block)
    requires s.Length0 == 4 && s.Length1 == 4
    reads s
  {
    forall r, c :: 0 <= r < 4 && 0 <= c < 4 ==> s[r, c] == st[r + 4 * c]
  }

  method AddRoundKey(s: array2<bv8>, w: seq<seq<bv8>>, rnd: nat, ghost st: Block)
    requires s.Length0 == 4 && s.Length1 == 4 && Shows(s, st) && IsSchedule(w) && rnd <= 10
    modifies s
    ensures Shows(s, AddKey(w, rnd, st))
  {
    hide Xor;
    ghost var after := AddKey(w, rnd, st);
    for c := 0 to 4
      invariant forall r, k :: 0 <= r < 4 && 0 <= k < 4 ==> s[r, k] == (if k < c then after else st)[r + 4 * k]
    {
      for r := 0 to 4
        invariant forall q, k :: 0 <= q < 4 && 0 <= k < 4 ==>
          s[q, k] == (if k < c || (k == c && q < r) then after else st)[q + 4 * k]
      {
        RowAndColumn(r, c);
        s[r, c] := Xor(s[r, c], w[rnd * 4 + c][r]);
      }
    }
  }

  method SubBytes(s: array2<bv8>, sbox: array<bv8>, ghost st: Block)
    requires s.Length0 == 4 && s.Length1 == 4 && Shows(s, st) && sbox.Length == 256
    modifies s
    ensures Shows(s, SubAll(sbox[..], st))
  {
    hide Sub;
    ghost var after := SubAll(sbox[..], st);
    for r := 0 to 4
      invariant forall q, c :: 0 <= q < 4 && 0 <= c < 4 ==> s[q, c] == (if q < r then after else st)[q + 4 * c]
    {
      for c := 0 to 4
        invariant forall q, k :: 0 <= q < 4 && 0 <= k < 4 ==>
          s[q, k] == (if q < r || (q == r && k < c) then after else st)[q + 4 * k]
      {
        var x := LookUp(sbox, s[r, c]);
        s[r, c] := x;
      }
    }
  }

  method LookUp(sbox: array<bv8>, p: bv8) returns (x: bv8)
    requires sbox.Length == 256
    ensures x == Sub(sbox[..], p)
  {
    IntsApart(p, 0);
    x := sbox[p as int];
  }

  /** Row r turns left by r places. */
  method TurnRow(s: array2<bv8>, r: nat)
    requires s.Length0 == 4 && s.Length1 == 4 && 1 <= r < 4
    modifies s
    ensures forall q, c :: 0 <= q < 4 && 0 <= c < 4 && q != r ==> s[q, c] == old(s[q, c])
    ensures s[r, 0] == old(s[r, Turn(0, r)]) && s[r, 1] == old(s[r, Turn(1, r)])
    ensures s[r, 2] == old(s[r, Turn(2, r)]) && s[r, 3] == old(s[r, Turn(3, r)])
  {
    if r == 1 {
      s[r, 0], s[r, 1], s[r, 2], s[r, 3] := s[r, 1], s[r, 2], s[r, 3], s[r, 0];
    } else if r == 2 {
      s[r, 0], s[r, 1], s[r, 2], s[r, 3] := s[r, 2], s[r, 3], s[r, 0], s[r, 1];
    } else {
      s[r, 0], s[r, 1], s[r, 2], s[r, 3] := s[r, 3], s[r, 0], s[r, 1], s[r, 2];
    }
  }

  method TurnRows(s: array2<bv8>, ghost st: Block)
    requires s.Length0 == 4 && s.Length1 == 4 && Shows(s, st)
    modifies s
    ensures Shows(s, ShiftRows(st))
  {
    hide ShiftRows, Turn;
    ghost var after := ShiftRows(st);
    ShiftedRow(st, 0);
    StaysPut();
    for r := 1 to 4
      invariant forall q, c :: 0 <= q < 4 && 0 <= c < 4 ==> s[q, c] == (if q < r then after else st)[q + 4 * c]
    {
      ShiftedRow(st, r);
      TurnsUndo(r, 0);
      TurnsUndo(r, 1);
      TurnsUndo(r, 2);
      TurnsUndo(r, 3);
      TurnRow(s, r);
    }
  }

  lemma StaysPut()
    ensures Turn(0, 0) == 0 && Turn(1, 0) == 1 && Turn(2, 0) == 2 && Turn(3, 0) == 3
  {
  }

  lemma ShiftedAt(st: Block, r: nat, c: nat)
    requires r < 4 && c < 4
    ensures Turn(c, r) < 4 && r + 4 * c < 16 && ShiftRows(st)[r + 4 * c] == st[r + 4 * Turn(c, r)]
  {
    hide Source;
    PlaceAt(r, c);
  }

  lemma ShiftedRow(st: Block, r: nat)
    requires r < 4
    ensures forall c :: 0 <= c < 4 ==> Turn(c, r) < 4
    ensures ShiftRows(st)[r + 4 * 0] == st[r + 4 * Turn(0, r)] && ShiftRows(st)[r + 4 * 1] == st[r + 4 * Turn(1, r)]
    ensures ShiftRows(st)[r + 4 * 2] == st[r + 4 * Turn(2, r)] && ShiftRows(st)[r + 4 * 3] == st[r + 4 * Turn(3, r)]
  {
    ShiftedAt(st, r, 0);
    ShiftedAt(st, r, 1);
    ShiftedAt(st, r, 2);
    ShiftedAt(st, r, 3);
    hide ShiftRows;
  }

  method MixColumn(s: array2<bv8>, c: nat)
    requires s.Length0 == 4 && s.Length1 == 4 && c < 4
    modifies s
    ensures forall r, k :: 0 <= r < 4 && 0 <= k < 4 && k != c ==> s[r, k] == old(s[r, k])
    ensures Column(s[0, c], s[1, c], s[2, c], s[3, c]) == old(Mix(Column(s[0, c], s[1, c], s[2, c], s[3, c])))
  {
    hide Mix, Xor, XTime, Sum4;
    var a0, a1, a2, a3 := s[0, c], s[1, c], s[2, c], s[3, c];
    MixSpelled(Column(a0, a1, a2, a3));
    s[0, c] := Sum4(XTime(a0), Xor(XTime(a1), a1), a2, a3);
    s[1, c] := Sum4(a0, XTime(a1), Xor(XTime(a2), a2), a3);
    s[2, c] := Sum4(a0, a1, XTime(a2), Xor(XTime(a3), a3));
    s[3, c] := Sum4(Xor(XTime(a0), a0), a1, a2, XTime(a3));
  }

  method MixColumns(s: array2<bv8>, ghost st: Block)
    requires s.Length0 == 4 && s.Length1 == 4 && Shows(s, st)
    modifies s
    ensures Shows(s, MixAll(st))
  {
    hide Mix, MixAll;
    ghost var after := MixAll(st);
    for c := 0 to 4
      invariant forall r, k :: 0 <= r < 4 && 0 <= k < 4 ==> s[r, k] == (if k < c then after else st)[r + 4 * k]
    {
      ColumnsMix(st, c);
      assert Column(s[0, c], s[1, c], s[2, c], s[3, c]) == ColumnOf(st, c);
      MixColumn(s, c);
      assert Column(s[0, c], s[1, c], s[2, c], s[3, c]) == ColumnOf(after, c);
      assert forall r :: 0 <= r < 4 ==> s[r, c] == after[r + 4 * c];
    }
  }

  lemma MixSpelled(x: Column)
    ensures Mix(x).a == Sum4(XTime(x.a), Xor(XTime(x.b), x.b), x.c, x.d)
    ensures Mix(x).b == Sum4(x.a, XTime(x.b), Xor(XTime(x.c), x.c), x.d)
    ensures Mix(x).c == Sum4(x.a, x.b, XTime(x.c), Xor(XTime(x.d), x.d))
    ensures Mix(x).d == Sum4(Xor(XTime(x.a), x.a), x.b, x.c, XTime(x.d))
  {
    hide Sum4, XTime, Xor;
  }

  method EncryptBlock(sbox: array<bv8>, w: seq<seq<bv8>>, block: Block) returns (out: Block)
    requires sbox.Length == 256 && IsSchedule(w)
    ensures out == Encrypt(sbox[..], w, block) && EncryptsTo(sbox[..], w, block, out)
  {
    hide EncryptsTo, AddKey, SubAll, ShiftRows, MixAll, IsSchedule;
    var s := new bv8[4, 4]((r, c) requires 0 <= r < 4 && 0 <= c < 4 => block[r + 4 * c]);
    AddRoundKey(s, w, 0, block);
    ghost var st := AddKey(w, 0, block);
    for rnd := 1 to 10
      invariant Shows(s, st) && st == Rounds(sbox[..], w, rnd - 1, block)
    {
      SubBytes(s, sbox, st);
      st := SubAll(sbox[..], st);
      TurnRows(s, st);
      st := ShiftRows(st);
      MixColumns(s, st);
      st := MixAll(st);
      AddRoundKey(s, w, rnd, st);
      st := AddKey(w, rnd, st);
    }
    SubBytes(s, sbox, st);
    st := SubAll(sbox[..], st);
    TurnRows(s, st);
    st := ShiftRows(st);
    AddRoundKey(s, w, 10, st);
    st := AddKey(w, 10, st);
    out := [s[0, 0], s[1, 0], s[2, 0], s[3, 0], s[0, 1], s[1, 1], s[2, 1], s[3, 1],
            s[0, 2], s[1, 2], s[2, 2], s[3, 2], s[0, 3], s[1, 3], s[2, 3], s[3, 3]];
    assert out == st;
    EncryptionIsStandard(sbox[..], w, block);
  }

  // ----- the key expansion ---------------------------------------------------------------

  function XorWord(a: seq<bv8>, b: seq<bv8>): (r: seq<bv8>)
    requires |a| == |b| == 4
    ensures |r| == 4
  {
    [Xor(a[0], b[0]), Xor(a[1], b[1]), Xor(a[2], b[2]), Xor(a[3], b[3])]
  }

  /** What a word adds to the one four places on: every fourth time it is turned, looked up
      and has the round constant added. */
  function Temp(sbox: seq<bv8>, t: seq<bv8>, i: nat): (r: seq<bv8>)
    requires |sbox| == 256 && |t| == 4
    ensures |r| == 4
  {
    if i % 4 != 0 then t
    else [Xor(Sub(sbox, t[1]), XTimes(1, if i >= 4 then i / 4 - 1 else 0)), Sub(sbox, t[2]), Sub(sbox, t[3]), Sub(sbox, t[0])]
  }

  /** The recurrence of section 5.2. */
  ghost predicate Expands(sbox: seq<bv8>, key: Block, w: seq<seq<bv8>>, n: nat)
    requires |sbox| == 256
  {
    && n <= |w| && (forall i :: 0 <= i < |w| ==> |w[i]| == 4)
    && (forall i {:trigger w[i]} :: 0 <= i < 4 && i < |w| ==> w[i] == key[4 * i..4 * i + 4])
    && forall i :: 4 <= i < n ==> w[i] == XorWord(w[i - 4], Temp(sbox, w[i - 1], i))
  }

  method ExpandKey(sbox: array<bv8>, key: Block) returns (w: seq<seq<bv8>>)
    requires sbox.Length == 256
    ensures Expands(sbox[..], key, w, 44) && IsExpansion(sbox[..], key, w)
  {
    hide Xor, Sub, XTimes, XTime;
    var rcon: bv8 := 1;
    w := [key[0..4], key[4..8], key[8..12], key[12..16]];
    FirstConstant();
    for i := 4 to 44
      invariant |w| == i && Expands(sbox[..], key, w, i)
      invariant rcon == XTimes(1, (i - 1) / 4)
    {
      var t := w[i - 1];
      ghost var word := t;
      if i % 4 == 0 {
        t := t[1..] + t[..1];
        var b0 := LookUp(sbox, t[0]);
        var b1 := LookUp(sbox, t[1]);
        var b2 := LookUp(sbox, t[2]);
        var b3 := LookUp(sbox, t[3]);
        t := [Xor(b0, rcon), b1, b2, b3];
        NextConstant(i / 4 - 1);
        rcon := XTime(rcon);
      }
      assert t == Temp(sbox[..], word, i) by { assert i % 4 == 0 ==> (i - 1) / 4 == i / 4 - 1; }
      w := w + [XorWord(w[i - 4], t)];
    }
    ExpansionIsStandard(sbox[..], key, w);
  }

  /** The words that follow the recurrence are the standard's, byte by byte. */
  lemma ExpansionIsStandard(sbox: seq<bv8>, key: Block, w: seq<seq<bv8>>)
    requires |sbox| == 256 && |w| == 44 && Expands(sbox, key, w, 44)
    ensures IsExpansion(sbox, key, w)
  {
    forall i, j | 0 <= i < 44 && 0 <= j < 4 ensures KeyByteIs(sbox, key, w, i, j) {
      if i < 4 {
        assert w[i] == key[4 * i..4 * i + 4];
      } else {
        LaterByte(sbox, key, w, i, j);
      }
    }
  }

  lemma LaterByte(sbox: seq<bv8>, key: Block, w: seq<seq<bv8>>, i: nat, j: nat)
    requires |sbox| == 256 && IsSchedule(w) && 4 <= i < 44 && j < 4
    requires w[i] == XorWord(w[i - 4], Temp(sbox, w[i - 1], i))
    ensures KeyByteIs(sbox, key, w, i, j)
  {
    hide Xor, Sub, XTimes, RoundConstant;
    if i % 4 == 0 {
      Constants();
      assert RoundConstant(i / 4) == XTimes(1, i / 4 - 1);
    }
  }

  lemma FirstConstant()
    ensures XTimes(1, 0) == 1
  {
  }

  lemma NextConstant(n: nat)
    ensures XTimes(1, n + 1) == XTime(XTimes(1, n))
  {
  }
}
