/** The column mixing of FIPS 197, sections 5.1.3 and 5.3.3, as matrix algebra over
    GF(2^8): the two matrices that mixColumns and invMixColumns apply are inverses. */
module ColumnMixing {
  import opened Gf256

  datatype Column = Column(r0: Elem, r1: Elem, r2: Elem, r3: Elem)

  /** One row of the matrix of mixColumns. */
  function MixRow(a: Elem, b: Elem, c: Elem, d: Elem): Elem {
    Add(Add(Add(Times(0x02, a), Times(0x03, b)), Times(0x01, c)), Times(0x01, d))
  }

  function MixColumn(c: Column): Column {
    Column(MixRow(c.r0, c.r1, c.r2, c.r3), MixRow(c.r1, c.r2, c.r3, c.r0),
           MixRow(c.r2, c.r3, c.r0, c.r1), MixRow(c.r3, c.r0, c.r1, c.r2))
  }

  /** One row of the matrix of invMixColumns. */
  function InvMixRow(a: Elem, b: Elem, c: Elem, d: Elem): Elem {
    Add(Add(Add(Times(0x0e, a), Times(0x0b, b)), Times(0x0d, c)), Times(0x09, d))
  }

  function InvMixColumn(c: Column): Column {
    Column(InvMixRow(c.r0, c.r1, c.r2, c.r3), InvMixRow(c.r1, c.r2, c.r3, c.r0),
           InvMixRow(c.r2, c.r3, c.r0, c.r1), InvMixRow(c.r3, c.r0, c.r1, c.r2))
  }

  /** One row of the square of the mixing matrix. */
  function SquareRow(a: Elem, c: Elem): Elem {
    Add(a, Xtime(Xtime(Add(a, c))))
  }

  function SquareColumn(c: Column): Column {
    Column(SquareRow(c.r0, c.r2), SquareRow(c.r1, c.r3), SquareRow(c.r2, c.r0), SquareRow(c.r3, c.r1))
  }

  // ---------- The multiples that the matrices use ----------

  function Sum3(a: Elem, b: Elem, c: Elem): Elem {
    Add(Add(a, b), c)
  }

  lemma Times1(a: Elem)
    ensures Times(0x01, a) == a
  {
    hide Xtime; hide Add;
    AddZero(a);
    AddCommutes(ZERO, a);
  }

  lemma Times2(a: Elem)
    ensures Times(0x02, a) == Xtime(a)
  {
    hide Xtime; hide Add;
    AddZero(ZERO);
    AddZero(Xtime(a));
    AddCommutes(ZERO, Xtime(a));
  }

  lemma Times3(a: Elem)
    ensures Times(0x03, a) == Add(a, Xtime(a))
  {
    hide Xtime; hide Add;
    AddZero(a);
    AddCommutes(ZERO, a);
    AddZero(Add(a, Xtime(a)));
  }

  lemma Times9(a: Elem)
    ensures Times(0x09, a) == Add(a, Xtime(Xtime(Xtime(a))))
  {
    hide Xtime; hide Add;
    AddZero(a);
    AddCommutes(ZERO, a);
  }

  lemma Times11(a: Elem)
    ensures Times(0x0b, a) == Add(Add(a, Xtime(a)), Xtime(Xtime(Xtime(a))))
  {
    hide Xtime; hide Add;
    AddZero(a);
    AddCommutes(ZERO, a);
    AddZero(Add(a, Xtime(a)));
  }

  lemma Times13(a: Elem)
    ensures Times(0x0d, a) == Add(Add(a, Xtime(Xtime(a))), Xtime(Xtime(Xtime(a))))
  {
    hide Xtime; hide Add;
    AddZero(a);
    AddCommutes(ZERO, a);
  }

  lemma Times14(a: Elem)
    ensures Times(0x0e, a) == Add(Add(Xtime(a), Xtime(Xtime(a))), Xtime(Xtime(Xtime(a))))
  {
    hide Xtime; hide Add;
    AddZero(ZERO);
    AddZero(Xtime(a));
    AddCommutes(ZERO, Xtime(a));
  }

  // ---------- Regroupings of short sums ----------

  lemma Telescopes(a: Elem, b: Elem, c: Elem)
    ensures Add(Add(a, b), Add(b, c)) == Add(a, c)
  {
  }

  lemma MixRegroups(xa: Elem, xb: Elem, b: Elem, c: Elem, d: Elem)
    ensures Add(Add(Add(xa, Add(b, xb)), c), d) == Add(Add(xa, xb), Sum3(b, c, d))
  {
  }

  lemma PairRegroups(u: Elem, v: Elem, a: Elem, b: Elem, s: Elem)
    ensures Add(Add(u, Add(b, s)), Add(v, Add(s, a))) == Add(Add(u, v), Add(a, b))
  {
  }

  lemma TripleRegroups(p: Elem, z: Elem, a: Elem, s: Elem)
    ensures Add(Add(p, s), Add(z, Add(a, s))) == Add(Add(p, z), a)
  {
  }

  lemma ShareCancels(x: Elem, u: Elem, a: Elem)
    ensures Add(Add(x, u), Add(u, a)) == Add(a, x)
  {
  }

  // ---------- The square of the mixing matrix ----------

  lemma MixRowByXtime(a: Elem, b: Elem, c: Elem, d: Elem)
    ensures MixRow(a, b, c, d) == Add(Xtime(Add(a, b)), Sum3(b, c, d))
  {
    hide Times; hide Xtime; hide Add; hide Sum3;
    Times2(a);
    Times3(b);
    Times1(c);
    Times1(d);
    MixRegroups(Xtime(a), Xtime(b), b, c, d);
    XtimeAdditive(a, b);
  }

  /** The sum of two neighbouring rows of a mixed column. */
  lemma NeighbourSum(a: Elem, b: Elem, c: Elem, d: Elem)
    ensures Add(MixRow(a, b, c, d), MixRow(b, c, d, a)) == Add(Xtime(Add(a, c)), Add(a, b))
  {
    hide MixRow; hide Xtime; hide Add;
    MixRowByXtime(a, b, c, d);
    MixRowByXtime(b, c, d, a);
    AddAssociative(b, c, d);
    PairRegroups(Xtime(Add(a, b)), Xtime(Add(b, c)), a, b, Add(c, d));
    XtimeAdditive(Add(a, b), Add(b, c));
    Telescopes(a, b, c);
  }

  /** The sum of the other three rows. */
  lemma OtherSum(a: Elem, b: Elem, c: Elem, d: Elem)
    ensures Sum3(MixRow(b, c, d, a), MixRow(c, d, a, b), MixRow(d, a, b, c)) == Add(Xtime(Add(a, b)), a)
  {
    hide MixRow; hide Xtime; hide Add;
    NeighbourSum(b, c, d, a);
    MixRowByXtime(d, a, b, c);
    AddAssociative(a, b, c);
    TripleRegroups(Xtime(Add(b, d)), Xtime(Add(d, a)), a, Add(b, c));
    XtimeAdditive(Add(b, d), Add(d, a));
    Telescopes(b, d, a);
    AddCommutes(a, b);
  }

  lemma MixRowTwice(a: Elem, b: Elem, c: Elem, d: Elem)
    ensures MixRow(MixRow(a, b, c, d), MixRow(b, c, d, a), MixRow(c, d, a, b), MixRow(d, a, b, c)) == SquareRow(a, c)
  {
    hide MixRow; hide Xtime; hide Add; hide Sum3;
    MixRowByXtime(MixRow(a, b, c, d), MixRow(b, c, d, a), MixRow(c, d, a, b), MixRow(d, a, b, c));
    NeighbourSum(a, b, c, d);
    OtherSum(a, b, c, d);
    XtimeAdditive(Xtime(Add(a, c)), Add(a, b));
    ShareCancels(Xtime(Xtime(Add(a, c))), Xtime(Add(a, b)), a);
  }

  lemma MixTwice(c: Column)
    ensures MixColumn(MixColumn(c)) == SquareColumn(c)
  {
    hide MixRow; hide SquareRow;
    MixRowTwice(c.r0, c.r1, c.r2, c.r3);
    MixRowTwice(c.r1, c.r2, c.r3, c.r0);
    MixRowTwice(c.r2, c.r3, c.r0, c.r1);
    MixRowTwice(c.r3, c.r0, c.r1, c.r2);
  }

  lemma SquareRowTwice(a: Elem, c: Elem)
    ensures SquareRow(SquareRow(a, c), SquareRow(c, a)) == a
  {
    hide Xtime; hide Add;
    var t := Xtime(Xtime(Add(a, c)));
    AddCommutes(a, c);
    AddExchanges(a, t, c, t);
    AddSelf(t);
    AddZero(Add(a, c));
    AddCancels(a, t);
  }

  lemma SquareTwice(c: Column)
    ensures SquareColumn(SquareColumn(c)) == c
  {
    hide SquareRow;
    SquareRowTwice(c.r0, c.r2);
    SquareRowTwice(c.r1, c.r3);
    SquareRowTwice(c.r2, c.r0);
    SquareRowTwice(c.r3, c.r1);
  }

  // ---------- The inverse matrix is the cube of the mixing matrix ----------

  lemma CubesRegroup(a2: Elem, b2: Elem, c2: Elem, d2: Elem)
    ensures Add(Add(Add(Xtime(a2), Xtime(b2)), Xtime(c2)), Xtime(d2)) == Xtime(Add(Add(a2, c2), Add(b2, d2)))
  {
    hide Xtime; hide Add;
    XtimeAdditive(a2, b2);
    XtimeAdditive(Add(a2, b2), c2);
    XtimeAdditive(Add(Add(a2, b2), c2), d2);
    AddAssociative(Add(a2, b2), c2, d2);
    AddExchanges(a2, b2, c2, d2);
  }

  lemma LowTermsRegroup(xa: Elem, a2: Elem, b: Elem, xb: Elem, c: Elem, c2: Elem, d: Elem)
    ensures Add(Add(Add(Add(xa, a2), Add(b, xb)), Add(c, c2)), d) == Add(Add(xa, xb), Add(Add(a2, c2), Sum3(b, c, d)))
  {
    hide Add;
    AddCommutes(b, xb);
    AddExchanges(xa, a2, xb, b);
    var x := Add(xa, xb);
    AddAssociative(x, Add(a2, b), Add(c, c2));
    AddCommutes(c, c2);
    AddExchanges(a2, b, c2, c);
    var y := Add(a2, c2);
    AddAssociative(x, Add(y, Add(b, c)), d);
    AddAssociative(y, Add(b, c), d);
  }

  lemma InvMixRowSplits(a: Elem, b: Elem, c: Elem, d: Elem)
    ensures InvMixRow(a, b, c, d) ==
      Add(Add(Add(Xtime(a), Xtime(b)), Add(Add(Xtime(Xtime(a)), Xtime(Xtime(c))), Sum3(b, c, d))),
          Xtime(Add(Add(Xtime(Xtime(a)), Xtime(Xtime(c))), Add(Xtime(Xtime(b)), Xtime(Xtime(d))))))
  {
    hide Times; hide Xtime; hide Add; hide Sum3;
    Times14(a);
    Times11(b);
    Times13(c);
    Times9(d);
    var a2, b2, c2, d2 := Xtime(Xtime(a)), Xtime(Xtime(b)), Xtime(Xtime(c)), Xtime(Xtime(d));
    var a3, b3, c3, d3 := Xtime(a2), Xtime(b2), Xtime(c2), Xtime(d2);
    var p, q, r := Add(Xtime(a), a2), Add(b, Xtime(b)), Add(c, c2);
    AddExchanges(p, a3, q, b3);
    AddExchanges(Add(p, q), Add(a3, b3), r, c3);
    AddExchanges(Add(Add(p, q), r), Add(Add(a3, b3), c3), d, d3);
    CubesRegroup(a2, b2, c2, d2);
    LowTermsRegroup(Xtime(a), a2, b, Xtime(b), c, c2, d);
  }

  lemma SharedPairCancels(b: Elem, c: Elem, d: Elem, t: Elem, q: Elem)
    ensures Sum3(Add(b, q), Add(c, t), Add(d, q)) == Add(t, Sum3(b, c, d))
  {
    hide Add;
    AddExchanges(b, q, c, t);
    AddExchanges(Add(b, c), Add(q, t), d, q);
    AddCommutes(q, t);
    AddCancels(t, q);
    AddCommutes(Sum3(b, c, d), t);
  }

  lemma InvMixRowIsMixOfSquare(a: Elem, b: Elem, c: Elem, d: Elem)
    ensures InvMixRow(a, b, c, d) == MixRow(SquareRow(a, c), SquareRow(b, d), SquareRow(c, a), SquareRow(d, b))
  {
    hide MixRow; hide InvMixRow; hide Xtime; hide Add; hide Sum3;
    var t, q := Xtime(Xtime(Add(a, c))), Xtime(Xtime(Add(b, d)));
    AddCommutes(a, c);
    AddCommutes(b, d);
    MixRowByXtime(SquareRow(a, c), SquareRow(b, d), SquareRow(c, a), SquareRow(d, b));
    SharedPairCancels(b, c, d, t, q);
    AddExchanges(a, t, b, q);
    XtimeAdditive(Add(a, b), Add(t, q));
    InvMixRowSplits(a, b, c, d);
    XtimeAdditive(a, b);
    XtimeAdditive(a, c);
    XtimeAdditive(Xtime(a), Xtime(c));
    XtimeAdditive(b, d);
    XtimeAdditive(Xtime(b), Xtime(d));
    var x, y, z := Xtime(Add(a, b)), Xtime(Add(t, q)), Add(t, Sum3(b, c, d));
    AddAssociative(x, z, y);
    AddCommutes(z, y);
    AddAssociative(x, y, z);
  }

  lemma InvMixIsMixOfSquare(c: Column)
    ensures InvMixColumn(c) == MixColumn(SquareColumn(c))
  {
    hide MixRow; hide InvMixRow; hide SquareRow;
    InvMixRowIsMixOfSquare(c.r0, c.r1, c.r2, c.r3);
    InvMixRowIsMixOfSquare(c.r1, c.r2, c.r3, c.r0);
    InvMixRowIsMixOfSquare(c.r2, c.r3, c.r0, c.r1);
    InvMixRowIsMixOfSquare(c.r3, c.r0, c.r1, c.r2);
  }

  /** The two matrices are inverses of each other, on both sides. */
  lemma MixColumnInverse(c: Column)
    ensures InvMixColumn(MixColumn(c)) == c
    ensures MixColumn(InvMixColumn(c)) == c
  {
    hide *;
    InvMixIsMixOfSquare(c);
    InvMixIsMixOfSquare(MixColumn(c));
    MixTwice(MixColumn(c));
    MixTwice(c);
    MixTwice(SquareColumn(c));
    SquareTwice(c);
  }
}
