/**
 The AES S-box: the powers of 3 visit every nonzero byte once before they return to 1, so
 the walk fills the whole table, with the affine map of the inverse at each place
 (FIPS 197, section 5.1.1). The table is a permutation of the bytes.
 */
module AesSbox {
  import opened AesField

  function Power(n: nat): bv8 {
    if n == 0 then 1 else Times3(Power(n - 1))
  }

  function InversePower(n: nat): bv8 {
    if n == 0 then 1 else Over3(InversePower(n - 1))
  }

  // ----- the order of 3 --------------------------------------------------------------------

  lemma MulByOne(a: bv8)
    ensures Mul(a, 1) == a
  {
    hide Xor, XTime;
    BitsOfOne();
    SumSkips(a, 1, 1, 8);
    XorLaws(a, 0, 0);
    assert Sum(a, 1, 1) == Xor(0, a);
  }

  lemma BitsOfOne()
    ensures BitOf(1, 0) && forall k: nat :: 1 <= k < 8 ==> !BitOf(1, k)
  {
  }

  lemma {:induction false} PowersMultiply(n: nat, m: nat)
    ensures Power(n + m) == Mul(Power(n), Power(m))
  {
    hide Mul, Times3;
    if m == 0 {
      MulByOne(Power(n));
    } else {
      PowersMultiply(n, m - 1);
      Mul3(Power(n), Power(m - 1));
    }
  }

  /** The first powers; 3 to the 25 is 2. */
  lemma FirstPowers()
    ensures Power(1) == 0x03 && Power(5) == 0x33 && Power(10) == 0x72 && Power(15) == 0x35 && Power(25) == 0x02
  {
    assert Power(1) == 0x03 && Power(2) == 0x05 && Power(3) == 0x0F && Power(4) == 0x11 && Power(5) == 0x33;
    assert Power(6) == 0x55 && Power(7) == 0xFF && Power(8) == 0x1A && Power(9) == 0x2E && Power(10) == 0x72;
    assert Power(11) == 0x96 && Power(12) == 0xA1 && Power(13) == 0xF8 && Power(14) == 0x13 && Power(15) == 0x35;
    assert Power(16) == 0x5F && Power(17) == 0xE1 && Power(18) == 0x38 && Power(19) == 0x48 && Power(20) == 0xD8;
    assert Power(21) == 0x73 && Power(22) == 0x95 && Power(23) == 0xA4 && Power(24) == 0xF7 && Power(25) == 0x02;
  }

  lemma Double(n: nat)
    ensures Power(n + 25) == XTime(Power(n))
  {
    hide Mul, Power;
    FirstPowers();
    PowersMultiply(n, 25);
    MulXRight(Power(n), 1);
    MulByOne(XTime(Power(n)));
    assert XTime(1) == 2;
  }

  lemma LargePowers()
    ensures Power(15) == 0x35 && Power(51) == 0x0C && Power(85) == 0xBD && Power(255) == 1
  {
    hide Power;
    FirstPowers();
    Double(1);
    Double(26);
    Double(10);
    Double(35);
    Double(60);
    assert Power(35) == 0xE4 && Power(60) == 0xD3;
    Doubles(5, 10);
    assert Doubled(0x33, 5) == 0x3A && Doubled(0x3A, 5) == 1 && Doubled(0x33, 10) == Doubled(0x3A, 5) by {
      Tenfold();
    }
  }

  function Doubled(a: bv8, n: nat): bv8 {
    XTimes(a, n)
  }

  lemma {:induction false} Doubles(n: nat, k: nat)
    ensures Power(n + 25 * k) == Doubled(Power(n), k)
  {
    hide XTime, Power;
    if k > 0 {
      Doubles(n, k - 1);
      Double(n + 25 * (k - 1));
    }
  }

  lemma Tenfold()
    ensures Doubled(0x33, 5) == 0x3A && Doubled(0x3A, 5) == 1 && Doubled(0x33, 10) == Doubled(0x3A, 5)
  {
    assert XTimes(0x33, 1) == 0x66 && XTimes(0x33, 2) == 0xCC && XTimes(0x33, 3) == 0x83;
    assert XTimes(0x33, 4) == 0x1D && XTimes(0x33, 5) == 0x3A;
    assert XTimes(0x3A, 1) == 0x74 && XTimes(0x3A, 2) == 0xE8 && XTimes(0x3A, 3) == 0xCB;
    assert XTimes(0x3A, 4) == 0x8D && XTimes(0x3A, 5) == 0x01;
    XTimesSplits(0x33, 5, 5);
  }

  lemma {:induction false} Repeats(d: nat, k: nat, r: nat)
    requires Power(d) == 1
    ensures Power(d * k + r) == Power(r)
    decreases k
  {
    hide Power;
    if k > 0 {
      Repeats(d, k - 1, r);
      var m := d * (k - 1) + r;
      assert d * k + r == m + d by { assert d * k == d * (k - 1) + d; }
      PowersMultiply(m, d);
      MulByOne(Power(m));
    }
  }

  /** A proper divisor of 255 divides 15, 51 or 85. */
  lemma Divisors(d: nat, k: nat)
    requires d * k == 255 && d < 255
    ensures (exists j: nat :: d * j == 15) || (exists j: nat :: d * j == 51) || (exists j: nat :: d * j == 85)
  {
    if d <= 15 {
      assert d != 0;
      if d == 1 { assert d * 15 == 15; }
      if d == 3 { assert d * 5 == 15; }
      if d == 5 { assert d * 3 == 15; }
      if d == 15 { assert d * 1 == 15; }
      assert d in {1, 3, 5, 15} by { SmallDivisor(d, k); }
    } else {
      assert k in {1, 3, 5, 15} by {
        if k >= 16 { LargeProduct(d, k); }
        SmallDivisor(k, d);
      }
      if k == 3 { assert d * 1 == 85; }
      if k == 5 { assert d * 1 == 51; }
      if k == 15 { assert d * 3 == 51; }
    }
  }

  lemma LargeProduct(d: nat, k: nat)
    requires d >= 16 && k >= 16
    ensures d * k >= 256
  {
    assert d * k == (d - 16) * (k - 16) + 16 * (d - 16) + 16 * (k - 16) + 256;
    assert (d - 16) * (k - 16) >= 0;
  }

  lemma SmallDivisor(d: nat, k: nat)
    requires d * k == 255 && d <= 15
    ensures d in {1, 3, 5, 15}
  {
    if d <= 7 {
      assert d == 0 || d == 1 || d == 2 || d == 3 || d == 4 || d == 5 || d == 6 || d == 7;
    } else {
      assert d == 8 || d == 9 || d == 10 || d == 11 || d == 12 || d == 13 || d == 14 || d == 15;
    }
  }

  /** No power before the 255th is 1. */
  lemma {:induction false} NotYetOne(n: nat)
    requires 0 < n < 255
    ensures Power(n) != 1
    decreases n
  {
    hide Power;
    LargePowers();
    if Power(n) == 1 {
      var k, r := 255 / n, 255 % n;
      assert 255 == n * k + r;
      Repeats(n, k, r);
      if r > 0 {
        NotYetOne(r);
      } else {
        Divisors(n, k);
        forall j: nat ensures Power(n * j) == Power(0) { Repeats(n, j, 0); }
        PowerZero();
      }
    }
  }

  lemma PowerZero()
    ensures Power(0) == 1 && InversePower(0) == 1
  {
  }

  lemma {:induction false} PowersDiffer(i: nat, j: nat)
    requires i < j < i + 255
    ensures Power(i) != Power(j)
    decreases i
  {
    hide Times3, Over3;
    if i == 0 {
      NotYetOne(j);
    } else {
      PowersDiffer(i - 1, j - 1);
      StepsUndo(Power(i - 1));
      StepsUndo(Power(j - 1));
    }
  }

  lemma MulByZero(a: bv8)
    ensures Mul(a, 0) == 0
  {
    hide XTimes, Xor;
    forall k: nat | 0 <= k < 8 ensures !BitOf(0, k) {}
    SumSkips(a, 0, 0, 8);
  }

  /** The walk's two numbers stay inverse to each other, and the inverse is the only one. */
  lemma {:induction false} WalkIsInverse(n: nat)
    ensures Mul(Power(n), InversePower(n)) == 1
  {
    hide Mul, Times3, Over3;
    if n == 0 {
      MulByOne(1);
    } else {
      WalkIsInverse(n - 1);
      WalkKeepsProduct(Power(n - 1), InversePower(n - 1));
    }
  }

  lemma {:induction false} OneInverse(n: nat, q: bv8)
    requires Mul(Power(n), q) == 1
    ensures q == InversePower(n)
    decreases n
  {
    hide Mul, Times3, Over3;
    if n == 0 {
      ProductOfOne(q);
    } else {
      Mul3(Power(n - 1), q);
      OneInverse(n - 1, Times3(q));
      StepsUndo(q);
    }
  }

  /** 1 times a byte is the byte, as every nonzero byte is a power. */
  lemma ProductOfOne(q: bv8)
    ensures Mul(1, q) == q
  {
    hide Mul, Power;
    if q == 0 {
      MulByZero(1);
    } else {
      var n := EveryByteVisited(q);
      PowersMultiply(0, n);
      PowerZero();
    }
  }

  // ----- every byte is visited ------------------------------------------------------------

  lemma IntsApart(a: bv8, b: bv8)
    ensures 0 <= a as int < 256
    ensures (a as int == b as int) <==> a == b
    ensures (a as int == 0) <==> a == 0
  {
    assert (a as int) as bv8 == a && (b as int) as bv8 == b;
  }

  ghost function Visited(n: nat): (s: set<int>)
  {
    if n == 0 then {} else Visited(n - 1) + {Power(n) as int}
  }

  lemma PowerNonzero(n: nat)
    ensures Power(n) != 0
  {
    hide Mul, Power;
    WalkIsInverse(n);
    MulZeroLeft(InversePower(n));
  }

  lemma {:induction false} ZeroSum(q: bv8, n: nat)
    requires n <= 8
    ensures Sum(0, q, n) == 0
  {
    hide Xor, BitOf;
    if n > 0 {
      ZeroSum(q, n - 1);
      ZeroTimes(n - 1);
      XorLaws(0, 0, 0);
    }
  }

  lemma {:induction false} ZeroTimes(n: nat)
    ensures XTimes(0, n) == 0
  {
    if n > 0 { ZeroTimes(n - 1); }
  }

  lemma MulZeroLeft(q: bv8)
    ensures Mul(0, q) == 0
  {
    ZeroSum(q, 8);
  }

  lemma {:induction false} VisitedAt(n: nat, x: int) returns (k: nat)
    requires x in Visited(n)
    ensures 1 <= k <= n && Power(k) as int == x
  {
    hide Power;
    if x == Power(n) as int { return n; }
    k := VisitedAt(n - 1, x);
  }

  lemma {:induction false} VisitedCount(n: nat)
    requires n <= 255
    ensures |Visited(n)| == n
  {
    hide Power;
    if n > 0 {
      VisitedCount(n - 1);
      if Power(n) as int in Visited(n - 1) {
        var k := VisitedAt(n - 1, Power(n) as int);
        IntsApart(Power(k), Power(n));
        PowersDiffer(k, n);
      }
    }
  }

  ghost function UpTo(n: nat): (s: set<int>)
    ensures |s| == n && forall x :: x in s <==> 1 <= x <= n
  {
    if n == 0 then {} else UpTo(n - 1) + {n}
  }

  lemma SubsetOfSize(a: set<int>, b: set<int>)
    requires a <= b && |a| == |b|
    ensures a == b
  {
    assert b == a + (b - a);
  }

  lemma AllVisited()
    ensures Visited(255) == UpTo(255)
  {
    hide Power;
    VisitedCount(255);
    forall x | x in Visited(255) ensures x in UpTo(255) {
      var k := VisitedAt(255, x);
      PowerNonzero(k);
      IntsApart(Power(k), 0);
    }
    SubsetOfSize(Visited(255), UpTo(255));
  }

  /** Every nonzero byte is one of the powers 1 to 255. */
  lemma EveryByteVisited(p: bv8) returns (n: nat)
    requires p != 0
    ensures 1 <= n <= 255 && Power(n) == p
  {
    hide Power, Visited, UpTo;
    AllVisited();
    IntsApart(p, 0);
    n := VisitedAt(255, p as int);
    IntsApart(Power(n), p);
  }

  /** Numbers below 256 and bytes correspond. */
  lemma NumberIsByte(a: int) returns (x: bv8)
    requires 0 <= a < 256
    ensures x as int == a && a as bv8 == x
  {
    hide Power, Visited, UpTo;
    x := 0;
    if a != 0 {
      AllVisited();
      var n := VisitedAt(255, a);
      x := Power(n);
    }
    assert (x as int) as bv8 == x;
  }

  // ----- the table --------------------------------------------------------------------------

  function RotL(q: bv8, n: nat): bv8
    requires 1 <= n <= 4
  {
    if n == 1 then (q << 1) | (q >> 7)
    else if n == 2 then (q << 2) | (q >> 6)
    else if n == 3 then (q << 3) | (q >> 5)
    else (q << 4) | (q >> 4)
  }

  /** The affine map of section 5.1.1. */
  function Affine(q: bv8): bv8 {
    q ^ RotL(q, 1) ^ RotL(q, 2) ^ RotL(q, 3) ^ RotL(q, 4) ^ 0x63
  }

  function InverseAffine(x: bv8): bv8 {
    ((x << 1) | (x >> 7)) ^ ((x << 3) | (x >> 5)) ^ ((x << 6) | (x >> 2)) ^ 0x05
  }

  lemma AffineUndone(q: bv8)
    ensures InverseAffine(Affine(q)) == q && Affine(InverseAffine(q)) == q
  {
  }

  lemma AffineOfZero()
    ensures Affine(0) == 0x63
  {
  }

  /** The table holds the affine map of each byte's inverse, and of 0 at 0. */
  ghost predicate IsSbox(s: seq<bv8>) {
    |s| == 256 && s[0] == Affine(0) && forall p: bv8, q: bv8 {:trigger Mul(p, q)} :: Mul(p, q) == 1 ==> s[p as int] == Affine(q)
  }

  ghost predicate FilledTo(s: seq<bv8>, n: nat) {
    |s| == 256 && forall k: nat {:trigger Power(k)} :: 1 <= k <= n ==> s[Power(k) as int] == Affine(InversePower(k))
  }

  lemma FillOne(s: seq<bv8>, n: nat)
    requires n < 255 && FilledTo(s, n)
    ensures FilledTo(s[Power(n + 1) as int := Affine(InversePower(n + 1))], n + 1)
  {
    hide Power, InversePower, Affine;
    forall k: nat | 1 <= k <= n ensures Power(k) as int != Power(n + 1) as int {
      PowersDiffer(k, n + 1);
      IntsApart(Power(k), Power(n + 1));
    }
  }

  lemma FilledIsSbox(s: seq<bv8>)
    requires FilledTo(s, 255)
    ensures IsSbox(s[0 := 0x63])
  {
    hide Power, InversePower, Affine, Mul;
    AffineOfZero();
    forall p: bv8, q: bv8 | Mul(p, q) == 1 ensures s[0 := 0x63][p as int] == Affine(q) {
      MulZeroLeft(q);
      IntsApart(p, 0);
      var n := EveryByteVisited(p);
      OneInverse(n, q);
    }
  }

  /** The walk ends after 255 steps, and the table is then full. */
  method InitAes() returns (sbox: array<bv8>)
    ensures fresh(sbox) && IsSbox(sbox[..])
  {
    hide Power, InversePower, Affine, Times3, Over3, IsSbox, FilledTo;
    var p: bv8, q: bv8 := 1, 1;
    sbox := new bv8[256](_ => 0);
    ghost var n: nat := 0;
    PowerZero();
    NothingFilled(sbox[..]);
    while true
      invariant n < 255 && p == Power(n) && q == InversePower(n)
      invariant sbox.Length == 256 && FilledTo(sbox[..], n)
      decreases 255 - n
    {
      FillOne(sbox[..], n);
      NextPower(n);
      p := Times3(p);
      q := Over3(q);
      n := n + 1;
      var x := Affine(q);
      sbox[p as int] := x;
      if p == 1 { break; }
      LargePowers();
    }
    if n < 255 { NotYetOne(n); }
    FilledIsSbox(sbox[..]);
    sbox[0] := 0x63;
  }

  lemma NothingFilled(s: seq<bv8>)
    requires |s| == 256
    ensures FilledTo(s, 0)
  {
  }

  lemma NextPower(n: nat)
    ensures Power(n + 1) == Times3(Power(n)) && InversePower(n + 1) == Over3(InversePower(n))
  {
  }

  // ----- the table is a permutation -----------------------------------------------------------

  /** The byte the table maps to x: the inverse of the affine preimage, or 0. */
  ghost function Preimage(x: bv8): (p: bv8)
    ensures InverseAffine(x) == 0 ==> p == 0
    ensures InverseAffine(x) != 0 ==> Mul(p, InverseAffine(x)) == 1
  {
    var q := InverseAffine(x);
    if q == 0 then 0
    else
      InverseExists(q);
      var p :| Mul(p, q) == 1;
      p
  }

  lemma {:induction false} InverseCycle(n: nat)
    requires n <= 255
    ensures InversePower(n) == Power(255 - n)
  {
    hide Times3, Over3;
    if n == 0 {
      LargePowers();
    } else {
      InverseCycle(n - 1);
      StepsUndo(Power(255 - n));
    }
  }

  lemma InverseExists(q: bv8)
    requires q != 0
    ensures exists p :: Mul(p, q) == 1
  {
    hide Mul, Power, InversePower;
    var n := EveryByteVisited(q);
    InverseCycle(255 - n);
    WalkIsInverse(255 - n);
    assert Mul(Power(255 - n), q) == 1;
  }

  /** Looking a byte up. */
  function Sub(s: seq<bv8>, p: bv8): bv8
    requires |s| == 256
  {
    IntsApart(p, 0);
    s[p as int]
  }

  lemma OnlyOne(p: bv8, r: bv8, q: bv8)
    requires Mul(p, q) == 1 && Mul(r, q) == 1
    ensures p == r
  {
    hide Mul, Power, InversePower;
    MulZeroLeft(q);
    var n := EveryByteVisited(p);
    var m := EveryByteVisited(r);
    OneInverse(n, q);
    OneInverse(m, q);
    InverseCycle(n);
    InverseCycle(m);
    if n < m { PowersDiffer(255 - m, 255 - n); }
    if m < n { PowersDiffer(255 - n, 255 - m); }
  }

  /** The table is a permutation of the bytes: looking up and taking the preimage undo each other. */
  lemma SboxIsPermutation(s: seq<bv8>, x: bv8)
    requires IsSbox(s)
    ensures Sub(s, Preimage(x)) == x && Preimage(Sub(s, x)) == x
  {
    hide Affine, InverseAffine, Mul, Power, InversePower;
    AffineUndone(x);
    AffineUndone(0);
    if x != 0 {
      var n := EveryByteVisited(x);
      WalkIsInverse(n);
      var q := InversePower(n);
      AffineUndone(q);
      MulByZero(x);
      OnlyOne(x, Preimage(Sub(s, x)), q);
    }
  }
}
