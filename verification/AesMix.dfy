/** The MixColumns step (FIPS 197, section 5.1.3): four times over, it is the identity. */
module AesMix {
  import opened AesField

  datatype Column = Column(a: bv8, b: bv8, c: bv8, d: bv8)

  /** One column, as the cipher's four assignments compute it. */
  function Mix(x: Column): Column {
    Column(Sum4(XTime(x.a), Xor(XTime(x.b), x.b), x.c, x.d),
           Sum4(x.a, XTime(x.b), Xor(XTime(x.c), x.c), x.d),
           Sum4(x.a, x.b, XTime(x.c), Xor(XTime(x.d), x.d)),
           Sum4(Xor(XTime(x.a), x.a), x.b, x.c, XTime(x.d)))
  }

  function Sum4(a: bv8, b: bv8, c: bv8, d: bv8): bv8 {
    Xor(Xor(Xor(a, b), c), d)
  }

  function Total(x: Column): bv8 {
    Xor(Xor(x.a, x.b), Xor(x.c, x.d))
  }

  /** x times the sum of a byte and the next, plus the byte, plus the column's sum. */
  function Lane(p: bv8, q: bv8, s: bv8): bv8 {
    Xor(XTime(Xor(p, q)), Xor(p, s))
  }

  /** A byte is absorbed by a sum it is part of. */
  lemma Absorbs(p: bv8, b: bv8, c: bv8, d: bv8, total: bv8)
    requires total == Xor(p, Xor(b, Xor(c, d)))
    ensures Xor(p, total) == Xor(b, Xor(c, d))
  {
    hide Xor;
    XorLaws(p, p, Xor(b, Xor(c, d)));
    XorLaws(Xor(b, Xor(c, d)), 0, 0);
  }

  /** A lane is twice a byte, three times the next, and the other two. */
  lemma LaneSpelled(p: bv8, q: bv8, c: bv8, d: bv8, total: bv8)
    requires total == Xor(p, Xor(q, Xor(c, d)))
    ensures Lane(p, q, total) == Sum4(XTime(p), Xor(XTime(q), q), c, d)
  {
    hide Xor, XTime;
    XTimeAdds(p, q);
    Absorbs(p, q, c, d, total);
    var tp, tq := XTime(p), XTime(q);
    XorLaws(tp, tq, q);
    XorLaws(Xor(tp, tq), q, c);
    XorLaws(Xor(tp, tq), Xor(q, c), d);
    XorLaws(q, c, d);
  }

  lemma TotalTurns(x: Column)
    ensures Total(x) == Xor(x.a, Xor(x.b, Xor(x.c, x.d)))
    ensures Total(x) == Xor(x.b, Xor(x.c, Xor(x.d, x.a)))
    ensures Total(x) == Xor(x.c, Xor(x.d, Xor(x.a, x.b)))
    ensures Total(x) == Xor(x.d, Xor(x.a, Xor(x.b, x.c)))
  {
    hide Xor;
    XorLaws(x.a, x.b, Xor(x.c, x.d));
    XorLaws(x.a, Xor(x.b, Xor(x.c, x.d)), 0);
    XorLaws(x.b, Xor(x.c, x.d), x.a);
    XorLaws(x.c, x.d, x.a);
    XorLaws(x.b, Xor(x.c, Xor(x.d, x.a)), 0);
    XorLaws(x.c, Xor(x.d, x.a), x.b);
    XorLaws(x.d, x.a, x.b);
    XorLaws(x.c, Xor(x.d, Xor(x.a, x.b)), 0);
    XorLaws(x.d, Xor(x.a, x.b), x.c);
    XorLaws(x.a, x.b, x.c);
  }

  lemma SumTurns(a: bv8, b: bv8, c: bv8, d: bv8)
    ensures Sum4(b, c, d, a) == Sum4(a, b, c, d)
  {
    hide Xor;
    XorLaws(Xor(b, c), d, a);
    XorLaws(d, a, 0);
    XorLaws(Xor(b, c), a, d);
    XorLaws(a, Xor(b, c), d);
    XorLaws(a, b, c);
  }

  lemma MixByLanes(x: Column)
    ensures Mix(x) == Lanes(x)
  {
    hide Xor, XTime, Sum4, Lane, Total;
    TotalTurns(x);
    LaneSpelled(x.a, x.b, x.c, x.d, Total(x));
    LaneSpelled(x.b, x.c, x.d, x.a, Total(x));
    LaneSpelled(x.c, x.d, x.a, x.b, Total(x));
    LaneSpelled(x.d, x.a, x.b, x.c, Total(x));
    var ta, tb, tc, td := XTime(x.a), XTime(x.b), XTime(x.c), XTime(x.d);
    SumTurns(x.a, tb, Xor(tc, x.c), x.d);
    SumTurns(x.b, tc, Xor(td, x.d), x.a);
    SumTurns(x.a, x.b, tc, Xor(td, x.d));
    SumTurns(Xor(ta, x.a), x.b, x.c, td);
    SumTurns(x.b, x.c, td, Xor(ta, x.a));
    SumTurns(x.c, td, Xor(ta, x.a), x.b);
  }

  function Lanes(x: Column): Column {
    var s := Total(x);
    Column(Lane(x.a, x.b, s), Lane(x.b, x.c, s), Lane(x.c, x.d, s), Lane(x.d, x.a, s))
  }

  lemma AroundCycle(a: bv8, b: bv8, c: bv8, d: bv8)
    ensures Xor(Xor(Xor(a, b), Xor(b, c)), Xor(Xor(c, d), Xor(d, a))) == 0
  {
  }

  lemma SameTail(p: bv8, q: bv8, s: bv8)
    ensures Xor(Xor(p, s), Xor(q, s)) == Xor(p, q)
  {
  }

  lemma TwoLanes(t: bv8, u: bv8, p: bv8, q: bv8, s: bv8)
    ensures Xor(Xor(t, Xor(p, s)), Xor(u, Xor(q, s))) == Xor(Xor(t, u), Xor(p, q))
  {
    hide Xor;
    XorPairs(t, Xor(p, s), u, Xor(q, s));
    SameTail(p, q, s);
  }

  lemma FourTerms(ta: bv8, tb: bv8, tc: bv8, td: bv8, a: bv8, b: bv8, c: bv8, d: bv8, s: bv8)
    ensures Xor(Xor(Xor(ta, Xor(a, s)), Xor(tb, Xor(b, s))), Xor(Xor(tc, Xor(c, s)), Xor(td, Xor(d, s))))
            == Xor(Xor(Xor(ta, tb), Xor(tc, td)), Xor(Xor(a, b), Xor(c, d)))
  {
    hide Xor;
    TwoLanes(ta, tb, a, b, s);
    TwoLanes(tc, td, c, d, s);
    XorPairs(Xor(ta, tb), Xor(a, b), Xor(tc, td), Xor(c, d));
  }

  /** Mixing keeps the sum of a column. */
  lemma MixKeepsTotal(x: Column)
    ensures Total(Lanes(x)) == Total(x)
  {
    hide XTime, Xor;
    var s := Total(x);
    var ab, bc, cd, da := Xor(x.a, x.b), Xor(x.b, x.c), Xor(x.c, x.d), Xor(x.d, x.a);
    FourTerms(XTime(ab), XTime(bc), XTime(cd), XTime(da), x.a, x.b, x.c, x.d, s);
    XTimeAdds(ab, bc);
    XTimeAdds(cd, da);
    XTimeAdds(Xor(ab, bc), Xor(cd, da));
    AroundCycle(x.a, x.b, x.c, x.d);
    XTimeOfZero();
    XorLaws(s, 0, 0);
  }

  lemma LaneEnds(e: bv8, t: bv8, p: bv8, s: bv8)
    ensures Xor(Xor(e, t), Xor(Xor(t, Xor(p, s)), s)) == Xor(e, p)
  {
  }

  lemma Skip(p: bv8, q: bv8, r: bv8)
    ensures Xor(Xor(p, q), Xor(q, r)) == Xor(p, r)
  {
  }

  /** Two lanes of lanes: 4 times the sum of a byte and the one across, plus the byte. */
  lemma LaneTwice(p: bv8, q: bv8, r: bv8, s: bv8)
    ensures Lane(Lane(p, q, s), Lane(q, r, s), s) == Xor(XTime(XTime(Xor(p, r))), p)
  {
    hide XTime, Xor;
    var pq, qr := Xor(p, q), Xor(q, r);
    TwoLanes(XTime(pq), XTime(qr), p, q, s);
    XTimeAdds(pq, qr);
    Skip(p, q, r);
    XTimeAdds(XTime(Xor(p, r)), pq);
    LaneEnds(XTime(XTime(Xor(p, r))), XTime(pq), p, s);
  }

  function Quadruple(p: bv8, r: bv8): bv8 {
    Xor(XTime(XTime(Xor(p, r))), p)
  }

  /** Twice over, the step adds to each byte 4 times its sum with the byte across. */
  function MixPairs(x: Column): Column {
    Column(Quadruple(x.a, x.c), Quadruple(x.b, x.d), Quadruple(x.c, x.a), Quadruple(x.d, x.b))
  }

  lemma MixTwice(x: Column)
    ensures Mix(Mix(x)) == MixPairs(x)
  {
    hide Mix, Lane, Total;
    MixByLanes(x);
    MixByLanes(Lanes(x));
    MixKeepsTotal(x);
    var s := Total(x);
    LaneTwice(x.a, x.b, x.c, s);
    LaneTwice(x.b, x.c, x.d, s);
    LaneTwice(x.c, x.d, x.a, s);
    LaneTwice(x.d, x.a, x.b, s);
  }

  lemma PairCancels(u: bv8, p: bv8, r: bv8)
    ensures Xor(Xor(u, p), Xor(u, r)) == Xor(p, r)
  {
  }

  lemma TwiceAdded(u: bv8, p: bv8)
    ensures Xor(u, Xor(u, p)) == p
  {
  }

  lemma QuadrupleTwice(p: bv8, r: bv8)
    ensures Quadruple(Quadruple(p, r), Quadruple(r, p)) == p
  {
    hide XTime, Xor;
    XorLaws(p, r, 0);
    var u := XTime(XTime(Xor(p, r)));
    PairCancels(u, p, r);
    TwiceAdded(u, p);
  }

  /** The step applied four times is the identity, so three times is its inverse. */
  lemma MixFourTimes(x: Column)
    ensures Mix(Mix(Mix(Mix(x)))) == x
  {
    hide Mix, Quadruple;
    MixTwice(x);
    MixTwice(MixPairs(x));
    QuadrupleTwice(x.a, x.c);
    QuadrupleTwice(x.b, x.d);
    QuadrupleTwice(x.c, x.a);
    QuadrupleTwice(x.d, x.b);
  }
}
