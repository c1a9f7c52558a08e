/**
 Arithmetic in GF(2^8) (FIPS 197, section 4) and the two steps of the walk that fills the
 AES S-box: p is multiplied by 3 while q is divided by it.
 */
module AesField {
  // ----- operations on one byte ----------------------------------------------------------

  /** Addition in the field. */
  function Xor(a: bv8, b: bv8): bv8 {
    a ^ b
  }

  /** Multiplication by x. */
  function XTime(a: bv8): bv8 {
    if a & 0x80 != 0 then (a << 1) ^ 0x1B else a << 1
  }

  /** The walk's step on p. */
  function Times3(p: bv8): bv8 {
    p ^ (p << 1) ^ (if p & 0x80 != 0 then 0x1B else 0)
  }

  /** The walk's step on q. */
  function Over3(q: bv8): bv8 {
    var a := q ^ (q << 1);
    var b := a ^ (a << 2);
    var c := b ^ (b << 4);
    if c & 0x80 != 0 then c ^ 0x09 else c
  }

  /** Bit n of a byte. */
  predicate BitOf(b: bv8, n: nat)
    requires n < 8
  {
    if n == 0 then b & 1 != 0
    else if n == 1 then b & 2 != 0
    else if n == 2 then b & 4 != 0
    else if n == 3 then b & 8 != 0
    else if n == 4 then b & 16 != 0
    else if n == 5 then b & 32 != 0
    else if n == 6 then b & 64 != 0
    else b & 128 != 0
  }

  /** Multiplication by x^n. */
  function XTimes(a: bv8, n: nat): bv8 {
    if n == 0 then a else XTime(XTimes(a, n - 1))
  }

  function Term(a: bv8, b: bv8, n: nat): bv8
    requires n < 8
  {
    if BitOf(b, n) then XTimes(a, n) else 0
  }

  /** The sum of a times x^k over the bits k of b below n. */
  function Sum(a: bv8, b: bv8, n: nat): bv8
    requires n <= 8
  {
    if n == 0 then 0 else Xor(Sum(a, b, n - 1), Term(a, b, n - 1))
  }

  /** The product in the field. */
  function Mul(a: bv8, b: bv8): bv8 {
    Sum(a, b, 8)
  }

  // ----- facts about one byte --------------------------------------------------------------

  lemma StepsUndo(q: bv8)
    ensures Times3(Over3(q)) == q && Over3(Times3(q)) == q
  {
  }

  lemma Times3Adds(p: bv8)
    ensures Times3(p) == Xor(p, XTime(p))
  {
  }

  lemma XorLaws(a: bv8, b: bv8, c: bv8)
    ensures Xor(a, b) == Xor(b, a) && Xor(Xor(a, b), c) == Xor(a, Xor(b, c))
    ensures Xor(a, 0) == a && Xor(a, a) == 0 && Xor(0, a) == a
  {
  }

  lemma XorPairs(a: bv8, b: bv8, c: bv8, d: bv8)
    ensures Xor(Xor(a, b), Xor(c, d)) == Xor(Xor(a, c), Xor(b, d))
  {
    hide Xor;
    XorLaws(a, b, Xor(c, d));
    XorLaws(b, c, d);
    XorLaws(c, b, d);
    XorLaws(a, c, Xor(b, d));
  }

  lemma TopBit(a: bv8, b: bv8)
    ensures (a ^ b) & 0x80 == (a & 0x80) ^ (b & 0x80)
    ensures a & 0x80 == 0 || a & 0x80 == 0x80
    ensures b & 0x80 == 0 || b & 0x80 == 0x80
  {
  }

  lemma ShiftAdds(a: bv8, b: bv8)
    ensures (a ^ b) << 1 == (a << 1) ^ (b << 1)
  {
  }

  lemma Reduced(x: bv8, y: bv8)
    ensures (x ^ 0x1B) ^ (y ^ 0x1B) == x ^ y
    ensures (x ^ 0x1B) ^ y == (x ^ y) ^ 0x1B && x ^ (y ^ 0x1B) == (x ^ y) ^ 0x1B
  {
  }

  lemma XTimeAdds(a: bv8, b: bv8)
    ensures XTime(Xor(a, b)) == Xor(XTime(a), XTime(b))
  {
    TopBit(a, b);
    ShiftAdds(a, b);
    Reduced(a << 1, b << 1);
  }

  lemma XTimeOfZero()
    ensures XTime(0) == 0
  {
  }

  lemma MaskAdds(b: bv8, c: bv8, k: bv8)
    ensures (b ^ c) & k == (b & k) ^ (c & k)
  {
  }

  lemma BitIsMask(b: bv8)
    ensures (b & 1 == 0 || b & 1 == 1) && (b & 2 == 0 || b & 2 == 2)
    ensures (b & 4 == 0 || b & 4 == 4) && (b & 8 == 0 || b & 8 == 8)
    ensures (b & 16 == 0 || b & 16 == 16) && (b & 32 == 0 || b & 32 == 32)
    ensures (b & 64 == 0 || b & 64 == 64) && (b & 128 == 0 || b & 128 == 128)
  {
  }

  lemma Differs(x: bv8, y: bv8, k: bv8)
    requires (x == 0 || x == k) && (y == 0 || y == k) && k != 0
    ensures (x ^ y != 0) <==> ((x != 0) != (y != 0))
  {
  }

  lemma BitAdds(b: bv8, c: bv8, n: nat)
    requires n < 8
    ensures BitOf(Xor(b, c), n) == (BitOf(b, n) != BitOf(c, n))
  {
    var k: bv8 := if n == 0 then 1 else if n == 1 then 2 else if n == 2 then 4 else if n == 3 then 8
                  else if n == 4 then 16 else if n == 5 then 32 else if n == 6 then 64 else 128;
    MaskAdds(b, c, k);
    BitIsMask(b);
    BitIsMask(c);
    Differs(b & k, c & k, k);
  }

  lemma BitShifts(b: bv8, n: nat)
    requires n < 8
    ensures BitOf(b << 1, n) == (n > 0 && BitOf(b, n - 1))
  {
    if n == 0 {
      assert (b << 1) & 1 == 0;
    } else if n <= 4 {
      ShiftedLow(b);
    } else {
      ShiftedHigh(b);
    }
  }

  lemma ShiftedLow(b: bv8)
    ensures ((b << 1) & 2 == 0) == (b & 1 == 0) && ((b << 1) & 4 == 0) == (b & 2 == 0)
    ensures ((b << 1) & 8 == 0) == (b & 4 == 0) && ((b << 1) & 16 == 0) == (b & 8 == 0)
  {
  }

  lemma ShiftedHigh(b: bv8)
    ensures ((b << 1) & 32 == 0) == (b & 16 == 0) && ((b << 1) & 64 == 0) == (b & 32 == 0)
    ensures ((b << 1) & 128 == 0) == (b & 64 == 0)
  {
  }

  lemma XTimeByTopBit(b: bv8)
    ensures XTime(b) == if BitOf(b, 7) then Xor(b << 1, 0x1B) else b << 1
  {
  }

  /** x^8 = x^4 + x^3 + x + 1. */
  lemma Reduction(a: bv8)
    ensures XTime(XTime(XTime(XTime(XTime(XTime(XTime(XTime(a))))))))
            == Xor(Xor(Xor(a, XTime(a)), XTime(XTime(XTime(a)))), XTime(XTime(XTime(XTime(a)))))
  {
  }

  // ----- the product is linear ----------------------------------------------------------------

  lemma {:induction false} XTimesAdds(a: bv8, b: bv8, n: nat)
    ensures XTimes(Xor(a, b), n) == Xor(XTimes(a, n), XTimes(b, n))
  {
    hide XTime, Xor;
    if n > 0 {
      XTimesAdds(a, b, n - 1);
      XTimeAdds(XTimes(a, n - 1), XTimes(b, n - 1));
    }
  }

  lemma {:induction false} SumAddsRight(a: bv8, b: bv8, c: bv8, n: nat)
    requires n <= 8
    ensures Sum(a, Xor(b, c), n) == Xor(Sum(a, b, n), Sum(a, c, n))
  {
    hide XTimes, Xor, BitOf;
    if n == 0 {
      XorLaws(0, 0, 0);
    } else {
      SumAddsRight(a, b, c, n - 1);
      BitAdds(b, c, n - 1);
      XorLaws(XTimes(a, n - 1), 0, 0);
      XorLaws(0, 0, 0);
      XorPairs(Sum(a, b, n - 1), Sum(a, c, n - 1), Term(a, b, n - 1), Term(a, c, n - 1));
    }
  }

  lemma {:induction false} SumAddsLeft(a: bv8, c: bv8, b: bv8, n: nat)
    requires n <= 8
    ensures Sum(Xor(a, c), b, n) == Xor(Sum(a, b, n), Sum(c, b, n))
  {
    hide XTimes, Xor, BitOf;
    XorLaws(0, 0, 0);
    if n > 0 {
      SumAddsLeft(a, c, b, n - 1);
      XTimesAdds(a, c, n - 1);
      XorPairs(Sum(a, b, n - 1), Sum(c, b, n - 1), Term(a, b, n - 1), Term(c, b, n - 1));
    }
  }

  lemma {:induction false} XTimesOfXTime(a: bv8, n: nat)
    ensures XTimes(XTime(a), n) == XTimes(a, n + 1) == XTime(XTimes(a, n))
  {
    hide XTime;
    if n > 0 { XTimesOfXTime(a, n - 1); }
  }

  /** A factor x comes out of the left side. */
  lemma {:induction false} SumXLeft(a: bv8, b: bv8, n: nat)
    requires n <= 8
    ensures Sum(XTime(a), b, n) == XTime(Sum(a, b, n))
  {
    hide XTimes, Xor, BitOf, XTime;
    XTimeOfZero();
    if n > 0 {
      SumXLeft(a, b, n - 1);
      XTimesOfXTime(a, n - 1);
      XTimeAdds(Sum(a, b, n - 1), Term(a, b, n - 1));
    }
  }

  lemma {:induction false} SumShifts(a: bv8, b: bv8, n: nat)
    requires 1 <= n <= 8
    ensures Sum(a, b << 1, n) == Sum(XTime(a), b, n - 1)
  {
    hide XTimes, Xor, BitOf, XTime;
    BitShifts(b, n - 1);
    XorLaws(0, 0, 0);
    if n == 1 {
      assert Sum(a, b << 1, 1) == Xor(Sum(a, b << 1, 0), Term(a, b << 1, 0));
    } else {
      SumShifts(a, b, n - 1);
      XTimesOfXTime(a, n - 2);
    }
  }

  lemma XTimesFour(a: bv8)
    ensures XTimes(a, 0) == a && XTimes(a, 1) == XTime(a)
    ensures XTimes(a, 3) == XTime(XTime(XTime(a))) && XTimes(a, 4) == XTime(XTime(XTime(XTime(a))))
  {
    hide XTime;
    assert XTimes(a, 2) == XTime(XTimes(a, 1));
    assert XTimes(a, 3) == XTime(XTimes(a, 2));
    assert XTimes(a, 4) == XTime(XTimes(a, 3));
  }

  lemma {:induction false} XTimesSplits(a: bv8, n: nat, m: nat)
    ensures XTimes(a, n + m) == XTimes(XTimes(a, n), m)
  {
    hide XTime;
    if m > 0 { XTimesSplits(a, n, m - 1); }
  }

  lemma BitsOf1B()
    ensures BitOf(0x1B, 0) && BitOf(0x1B, 1) && !BitOf(0x1B, 2) && BitOf(0x1B, 3) && BitOf(0x1B, 4)
    ensures !BitOf(0x1B, 5) && !BitOf(0x1B, 6) && !BitOf(0x1B, 7)
  {
  }

  lemma {:induction false} SumSkips(a: bv8, b: bv8, n: nat, m: nat)
    requires n <= m <= 8 && forall k: nat :: n <= k < m ==> !BitOf(b, k)
    ensures Sum(a, b, m) == Sum(a, b, n)
    decreases m
  {
    hide Xor, BitOf, XTimes;
    if m > n {
      SumSkips(a, b, n, m - 1);
      XorLaws(Sum(a, b, m - 1), 0, 0);
    }
  }

  /** Reducing: a times x^8 is a times 0x1B. */
  lemma EighthPower(a: bv8)
    ensures Mul(a, 0x1B) == XTimes(a, 8)
  {
    hide Xor, BitOf, XTime;
    BitsOf1B();
    XTimesFour(a);
    XTimesFour(XTimes(a, 4));
    XTimesSplits(a, 4, 4);
    Reduction(a);
    SumSkips(a, 0x1B, 5, 8);
    XorLaws(a, 0, 0);
    XorLaws(Sum(a, 0x1B, 2), 0, 0);
    assert Sum(a, 0x1B, 1) == Xor(0, a);
    assert Sum(a, 0x1B, 2) == Xor(Sum(a, 0x1B, 1), XTime(a));
    assert Sum(a, 0x1B, 3) == Sum(a, 0x1B, 2);
    assert Sum(a, 0x1B, 4) == Xor(Sum(a, 0x1B, 3), XTimes(a, 3));
    assert Sum(a, 0x1B, 5) == Xor(Sum(a, 0x1B, 4), XTimes(a, 4));
  }

  /** A factor x moves from the right side to the left. */
  lemma MulXRight(a: bv8, b: bv8)
    ensures Mul(a, XTime(b)) == Mul(XTime(a), b)
  {
    hide Xor, BitOf, XTime, XTimes;
    XTimeByTopBit(b);
    SumShifts(a, b, 8);
    SumAddsRight(a, b << 1, 0x1B, 8);
    EighthPower(a);
    XTimesOfXTime(a, 7);
    XorLaws(Sum(XTime(a), b, 7), 0, 0);
  }

  /** A factor 3 moves out of either side of a product. */
  lemma Mul3(a: bv8, b: bv8)
    ensures Mul(Times3(a), b) == Times3(Mul(a, b))
    ensures Mul(a, Times3(b)) == Times3(Mul(a, b))
  {
    hide Xor, XTime, Times3, Sum;
    Times3Adds(a);
    Times3Adds(b);
    Times3Adds(Mul(a, b));
    SumAddsLeft(a, XTime(a), b, 8);
    SumAddsRight(a, b, XTime(b), 8);
    SumXLeft(a, b, 8);
    MulXRight(a, b);
  }

  /** The walk keeps the product: p times 3, q over 3. */
  lemma WalkKeepsProduct(p: bv8, q: bv8)
    ensures Mul(Times3(p), Over3(q)) == Mul(p, q)
  {
    hide Mul, Times3, Over3;
    Mul3(p, Over3(q));
    StepsUndo(q);
  }
}
