/** Arithmetic in GF(2^8) as FIPS 197, section 4 defines it, and the multiplier
    that the cipher uses in its column mixing.

    A byte that is read as a field element is wrapped in `Elem`. The wrapper keeps
    bit-vector reasoning inside the small lemmas of this module: everything built on
    top of it uses the field laws only. */
module Gf256 {

  type Byte = bv8

  datatype Elem = Elem(bits: Byte)

  const ZERO := Elem(0)

  function Add(a: Elem, b: Elem): Elem {
    Elem(a.bits ^ b.bits)
  }

  /** Multiplication by x: the bit shifted out is replaced by the reduced x^8. */
  function Xtime(a: Elem): Elem {
    Elem(XtimeBits(a.bits))
  }

  function XtimeBits(b: Byte): Byte {
    (b << 1) ^ ((b >> 7) * 0x1b)
  }

  // ---------- Laws of addition ----------

  lemma AddCommutes(a: Elem, b: Elem)
    ensures Add(a, b) == Add(b, a)
  {
  }

  lemma AddZero(a: Elem)
    ensures Add(a, ZERO) == a
  {
  }

  lemma AddSelf(a: Elem)
    ensures Add(a, a) == ZERO
  {
  }

  lemma AddCancels(a: Elem, b: Elem)
    ensures Add(Add(a, b), b) == a
  {
  }

  lemma AddAssociative(a: Elem, b: Elem, c: Elem)
    ensures Add(Add(a, b), c) == Add(a, Add(b, c))
  {
  }

  lemma XtimeAdditive(a: Elem, b: Elem)
    ensures Xtime(Add(a, b)) == Add(Xtime(a), Xtime(b))
  {
  }

  /** The branch of the C code computes the same value. */
  lemma XtimeByBranch(b: Byte)
    ensures XtimeBits(b) == if b & 0x80 != 0 then (b << 1) ^ 0x1b else b << 1
  {
  }

  // ---------- The multiplier of the cipher ----------

  /** Keeps `b` when bit `m` of `a` is set. */
  function Pick(a: Byte, m: Byte, b: Elem): Elem {
    if a & m != 0 then b else ZERO
  }

  function Mask(i: nat): Byte {
    if i == 0 then 0x01 else if i == 1 then 0x02 else if i == 2 then 0x04 else if i == 3 then 0x08
    else if i == 4 then 0x10 else if i == 5 then 0x20 else if i == 6 then 0x40 else 0x80
  }

  /** What FFmul computes: the low four bits of `a` select multiples of `b`. */
  function Times(a: Byte, b: Elem): Elem {
    var b1 := Xtime(b);
    var b2 := Xtime(b1);
    var b3 := Xtime(b2);
    Add(Add(Add(Add(ZERO, Pick(a, 0x01, b)), Pick(a, 0x02, b1)), Pick(a, 0x04, b2)), Pick(a, 0x08, b3))
  }

  predicate BitSet(a: Byte, i: nat)
    requires i < 8
  {
    (a >> i) & 0x01 != 0
  }

  lemma BitOf(a: Byte, i: nat)
    requires i < 4
    ensures BitSet(a, i) <==> a & Mask(i) != 0
  {
    if i == 0 {} else if i == 1 {} else if i == 2 {} else {}
  }

  method FFmul(a: Byte, b: Byte) returns (res: Byte)
    ensures Elem(res) == Times(a, Elem(b))
  {
    hide *;
    var bw := new Byte[4];
    FillMultiples(bw, b);
    ghost var m := bw[..];
    SumOfFour(a, m);
    PickedStep(a, m, 0);
    res := 0;
    var i := 0;
    while i < 4
      invariant 0 <= i <= 4 && m == bw[..]
      invariant Elem(res) == PickedSum(a, m, i)
    {
      BitOf(a, i);
      AddPicked(a, Mask(i), res, bw[i]);
      PickedStep(a, m, i);
      if BitSet(a, i) {
        res := res ^ bw[i];
      }
      i := i + 1;
    }
  }

  /** The first loop of FFmul: the multiples of `b` by 1, x, x^2 and x^3. */
  method FillMultiples(bw: array<Byte>, b: Byte)
    requires bw.Length == 4
    modifies bw
    ensures bw[0] == b
    ensures forall k :: 1 <= k < 4 ==> bw[k] == XtimeBits(bw[k - 1])
  {
    hide *;
    bw[0] := b;
    var i := 1;
    while i < 4
      invariant 1 <= i <= 4
      invariant bw[0] == b
      invariant forall k :: 1 <= k < i ==> bw[k] == XtimeBits(bw[k - 1])
    {
      XtimeByBranch(bw[i - 1]);
      bw[i] := bw[i - 1] << 1;
      if bw[i - 1] & 0x80 != 0 {
        bw[i] := bw[i] ^ 0x1b;
      }
      i := i + 1;
    }
  }

  /** The sum of the multiples that the first `n` bits of `a` select. */
  ghost function PickedSum(a: Byte, multiples: seq<Byte>, n: nat): Elem
    requires n <= |multiples|
  {
    if n == 0 then ZERO
    else Add(PickedSum(a, multiples, n - 1), Pick(a, Mask(n - 1), Elem(multiples[n - 1])))
  }

  lemma AddPicked(a: Byte, m: Byte, sum: Byte, b: Byte)
    ensures Add(Elem(sum), Pick(a, m, Elem(b))) == if a & m != 0 then Elem(sum ^ b) else Elem(sum)
  {
    if a & m == 0 {
      AddZero(Elem(sum));
    }
  }

  lemma PickedStep(a: Byte, m: seq<Byte>, n: nat)
    requires n < |m|
    ensures PickedSum(a, m, 0) == Elem(0)
    ensures PickedSum(a, m, n + 1) == Add(PickedSum(a, m, n), Pick(a, Mask(n), Elem(m[n])))
  {
  }

  lemma SumOfFour(a: Byte, m: seq<Byte>)
    requires |m| == 4 && m[1] == XtimeBits(m[0]) && m[2] == XtimeBits(m[1]) && m[3] == XtimeBits(m[2])
    ensures PickedSum(a, m, 4) == Times(a, Elem(m[0]))
  {
    hide XtimeBits;
    hide Add;
    hide Pick;
    assert PickedSum(a, m, 2) == Add(PickedSum(a, m, 1), Pick(a, 0x02, Elem(m[1])));
    assert PickedSum(a, m, 3) == Add(PickedSum(a, m, 2), Pick(a, 0x04, Elem(m[2])));
  }

  // ---------- FFmul is polynomial multiplication modulo x^8 + x^4 + x^3 + x + 1 ----------

  /** A polynomial over GF(2) of degree below 16. */
  datatype Poly = Poly(coeffs: bv16)

  function PolyAdd(p: Poly, q: Poly): Poly {
    Poly(p.coeffs ^ q.coeffs)
  }

  function PolyPick(a: Byte, m: Byte, p: Poly): Poly {
    if a & m != 0 then p else Poly(0)
  }

  function Lift(a: Elem): Poly {
    Poly(a.bits as bv16)
  }

  function TimesX(p: Poly): Poly {
    Poly(p.coeffs << 1)
  }

  /** b * x^i, not reduced. */
  function Shifted(b: Elem, i: nat): Poly {
    if i == 0 then Lift(b) else TimesX(Shifted(b, i - 1))
  }

  /** The product of b with the first n terms of a, not reduced. */
  function PolyProduct(a: Byte, b: Elem, n: nat): Poly {
    if n == 0 then Poly(0)
    else PolyAdd(PolyProduct(a, b, n - 1), PolyPick(a, Mask(n - 1), Shifted(b, n - 1)))
  }

  /** The multiple of the modulus by a quotient of degree below 8. */
  function Multiple(q: Elem): Poly {
    var p := q.bits as bv16;
    Poly((p << 8) ^ (p << 4) ^ (p << 3) ^ (p << 1) ^ p)
  }

  /** `r` is a remainder of `p`: the two differ by a multiple of the modulus. */
  ghost predicate Congruent(p: Poly, r: Elem) {
    exists q: Elem :: p == PolyAdd(Multiple(q), Lift(r))
  }

  function High(p: Poly): Elem { Elem((p.coeffs >> 8) as Byte) }

  function Low(p: Poly): Elem { Elem((p.coeffs & 0xff) as Byte) }

  /** The two bytes of a multiple of the modulus. */
  function HighOfMultiple(q: Elem): Elem {
    Elem(q.bits ^ ((q.bits >> 4) ^ ((q.bits >> 5) ^ (q.bits >> 7))))
  }

  function LowOfMultiple(q: Elem): Elem {
    Elem(q.bits ^ ((q.bits << 1) ^ ((q.bits << 3) ^ (q.bits << 4))))
  }

  /** HighOfMultiple is its own inverse, so the high byte tells the quotient. */
  function Remainder(p: Poly): Elem {
    Add(Low(p), LowOfMultiple(HighOfMultiple(High(p))))
  }

  lemma HighTellsQuotient(q: Elem)
    ensures HighOfMultiple(HighOfMultiple(q)) == q
  {
  }

  lemma HighOfSum(q: Elem, r: Elem)
    ensures High(PolyAdd(Multiple(q), Lift(r))) == HighOfMultiple(q)
  {
  }

  lemma LowOfSum(q: Elem, r: Elem)
    ensures Low(PolyAdd(Multiple(q), Lift(r))) == Add(LowOfMultiple(q), r)
  {
  }

  lemma BytesDetermine(p: Poly, q: Poly)
    requires High(p) == High(q) && Low(p) == Low(q)
    ensures p == q
  {
  }

  lemma Division(p: Poly)
    ensures p == PolyAdd(Multiple(HighOfMultiple(High(p))), Lift(Remainder(p)))
  {
    hide Multiple; hide HighOfMultiple; hide LowOfMultiple; hide High; hide Low; hide PolyAdd; hide Add; hide Lift;
    var q := HighOfMultiple(High(p));
    var s := Remainder(p);
    HighTellsQuotient(High(p));
    HighOfSum(q, s);
    LowOfSum(q, s);
    AddCommutes(LowOfMultiple(q), s);
    AddCancels(Low(p), LowOfMultiple(q));
    BytesDetermine(p, PolyAdd(Multiple(q), Lift(s)));
  }

  /** Every polynomial has exactly one remainder of degree below 8. */
  lemma RemainderUnique(p: Poly, r: Elem)
    ensures Congruent(p, r) <==> r == Remainder(p)
  {
    hide Multiple; hide HighOfMultiple; hide LowOfMultiple; hide High; hide Low; hide PolyAdd; hide Add; hide Lift;
    Division(p);
    if Congruent(p, r) {
      var q :| p == PolyAdd(Multiple(q), Lift(r));
      HighOfSum(q, r);
      LowOfSum(q, r);
      HighTellsQuotient(q);
      AddCommutes(LowOfMultiple(q), r);
      AddCancels(r, LowOfMultiple(q));
    }
  }

  // Division is additive, and turns a shift into a multiplication by x.

  lemma HighAdditive(p: Poly, q: Poly)
    ensures High(PolyAdd(p, q)) == Add(High(p), High(q))
  {
  }

  lemma LowAdditive(p: Poly, q: Poly)
    ensures Low(PolyAdd(p, q)) == Add(Low(p), Low(q))
  {
  }

  lemma HighOfMultipleAdditive(p: Elem, q: Elem)
    ensures HighOfMultiple(Add(p, q)) == Add(HighOfMultiple(p), HighOfMultiple(q))
  {
  }

  lemma LowOfMultipleAdditive(p: Elem, q: Elem)
    ensures LowOfMultiple(Add(p, q)) == Add(LowOfMultiple(p), LowOfMultiple(q))
  {
  }

  lemma AddExchanges(a: Elem, b: Elem, c: Elem, d: Elem)
    ensures Add(Add(a, b), Add(c, d)) == Add(Add(a, c), Add(b, d))
  {
  }

  lemma RemainderAdditive(p: Poly, q: Poly)
    ensures Remainder(PolyAdd(p, q)) == Add(Remainder(p), Remainder(q))
  {
    hide HighOfMultiple; hide LowOfMultiple; hide High; hide Low; hide PolyAdd; hide Add;
    HighAdditive(p, q);
    LowAdditive(p, q);
    HighOfMultipleAdditive(High(p), High(q));
    var x, y := HighOfMultiple(High(p)), HighOfMultiple(High(q));
    LowOfMultipleAdditive(x, y);
    AddExchanges(Low(p), LowOfMultiple(x), Low(q), LowOfMultiple(y));
  }

  lemma RemainderOfByte(b: Elem)
    ensures Remainder(Lift(b)) == b
  {
  }

  // Shifting a byte left leaves the shifted byte and at most one multiple of the modulus.

  function TopBit(r: Elem): Elem {
    Elem(r.bits >> 7)
  }

  lemma ByteTimesX(r: Elem)
    ensures TimesX(Lift(r)) == PolyAdd(Multiple(TopBit(r)), Lift(Xtime(r)))
  {
  }

  lemma TimesXAdditive(p: Poly, q: Poly)
    ensures TimesX(PolyAdd(p, q)) == PolyAdd(TimesX(p), TimesX(q))
  {
  }

  lemma MultipleTimesX(q: Elem)
    requires q.bits & 0x80 == 0
    ensures TimesX(Multiple(q)) == Multiple(Elem(q.bits << 1))
  {
  }

  lemma MultipleAdditive(p: Elem, q: Elem)
    ensures Multiple(Add(p, q)) == PolyAdd(Multiple(p), Multiple(q))
  {
  }

  lemma PolyAddAssociative(p: Poly, q: Poly, r: Poly)
    ensures PolyAdd(PolyAdd(p, q), r) == PolyAdd(p, PolyAdd(q, r))
  {
  }

  /** No bit is lost when `p` is shifted left once. */
  predicate Fits(p: Poly) {
    p.coeffs <= 0x7fff
  }

  function Doubled(q: Elem): Elem {
    Elem(q.bits << 1)
  }

  lemma QuotientTimesX(p: Poly)
    requires Fits(p)
    ensures TimesX(Multiple(HighOfMultiple(High(p)))) == Multiple(Doubled(HighOfMultiple(High(p))))
  {
    var q := HighOfMultiple(High(p));
    QuotientFits(p);
    hide HighOfMultiple;
    MultipleTimesX(q);
  }

  lemma QuotientFits(p: Poly)
    requires Fits(p)
    ensures HighOfMultiple(High(p)).bits & 0x80 == 0
  {
  }

  lemma RemainderTimesX(p: Poly)
    requires Fits(p)
    ensures Remainder(TimesX(p)) == Xtime(Remainder(p))
  {
    hide *;
    var q, r := HighOfMultiple(High(p)), Remainder(p);
    QuotientTimesX(p);
    Division(p);
    TimesXAdditive(Multiple(q), Lift(r));
    ByteTimesX(r);
    MultipleAdditive(Doubled(q), TopBit(r));
    PolyAddAssociative(Multiple(Doubled(q)), Multiple(TopBit(r)), Lift(Xtime(r)));
    CongruentBy(TimesX(p), Add(Doubled(q), TopBit(r)), Xtime(r));
    RemainderUnique(TimesX(p), Xtime(r));
  }

  lemma CongruentBy(p: Poly, q: Elem, r: Elem)
    requires p == PolyAdd(Multiple(q), Lift(r))
    ensures Congruent(p, r)
  {
  }

  /** `p` is at most a byte shifted left `i` times. */
  predicate Within(p: Poly, i: nat) {
    p.coeffs <= if i == 0 then 0xff else if i == 1 then 0x1fe else if i == 2 then 0x3fc else if i == 3 then 0x7f8
                else if i == 4 then 0xff0 else if i == 5 then 0x1fe0 else 0x3fc0
  }

  lemma LiftWithin(b: Elem)
    ensures Within(Lift(b), 0)
  {
  }

  lemma WithinStep(p: Poly, i: nat)
    requires Within(p, i) && i < 6
    ensures Within(TimesX(p), i + 1)
  {
  }

  lemma WithinFits(p: Poly, i: nat)
    requires Within(p, i) && i <= 6
    ensures Fits(p)
  {
  }

  lemma ShiftedWithin(b: Elem, i: nat)
    requires i <= 6
    ensures Within(Shifted(b, i), i)
  {
    hide Lift; hide TimesX; hide Within;
    if i == 0 {
      LiftWithin(b);
    } else {
      ShiftedWithin(b, i - 1);
      WithinStep(Shifted(b, i - 1), i - 1);
    }
  }

  /** x^i * b in the field. */
  function Power(b: Elem, i: nat): Elem {
    if i == 0 then b else Xtime(Power(b, i - 1))
  }

  lemma {:induction false} RemainderShifted(b: Elem, i: nat)
    requires i <= 7
    ensures Remainder(Shifted(b, i)) == Power(b, i)
  {
    hide Remainder; hide Lift; hide TimesX; hide Xtime; hide Within; hide Fits;
    if i == 0 {
      RemainderOfByte(b);
    } else {
      RemainderShifted(b, i - 1);
      ShiftedWithin(b, i - 1);
      WithinFits(Shifted(b, i - 1), i - 1);
      RemainderTimesX(Shifted(b, i - 1));
    }
  }

  /** The field product of b with the first n terms of a. */
  function FieldProduct(a: Byte, b: Elem, n: nat): Elem {
    if n == 0 then ZERO
    else Add(FieldProduct(a, b, n - 1), Pick(a, Mask(n - 1), Power(b, n - 1)))
  }

  lemma RemainderPick(a: Byte, m: Byte, p: Poly)
    ensures Remainder(PolyPick(a, m, p)) == Pick(a, m, Remainder(p))
  {
    if a & m == 0 {
      RemainderOfZero();
    }
  }

  lemma RemainderOfZero()
    ensures Remainder(Poly(0)) == ZERO
  {
  }

  lemma {:induction false} RemainderOfProduct(a: Byte, b: Elem, n: nat)
    requires n <= 8
    ensures Remainder(PolyProduct(a, b, n)) == FieldProduct(a, b, n)
  {
    hide Remainder; hide Pick; hide PolyPick; hide PolyAdd; hide Add; hide Mask; hide Shifted; hide Power;
    if n == 0 {
      RemainderOfZero();
    } else {
      RemainderOfProduct(a, b, n - 1);
      RemainderAdditive(PolyProduct(a, b, n - 1), PolyPick(a, Mask(n - 1), Shifted(b, n - 1)));
      RemainderPick(a, Mask(n - 1), Shifted(b, n - 1));
      RemainderShifted(b, n - 1);
    }
  }

  lemma NoHighTerm(a: Byte, n: nat, b: Elem)
    requires a < 16 && 4 <= n < 8
    ensures Pick(a, Mask(n), b) == ZERO
  {
  }

  lemma TimesIsFieldProduct(a: Byte, b: Elem)
    requires a < 16
    ensures Times(a, b) == FieldProduct(a, b, 8)
  {
    hide Pick; hide Add; hide Xtime;
    var p4 := FieldProduct(a, b, 4);
    assert FieldProduct(a, b, 2) == Add(FieldProduct(a, b, 1), Pick(a, 0x02, Power(b, 1)));
    assert FieldProduct(a, b, 3) == Add(FieldProduct(a, b, 2), Pick(a, 0x04, Power(b, 2)));
    assert p4 == Times(a, b);
    NoHighTerm(a, 4, Power(b, 4));
    NoHighTerm(a, 5, Power(b, 5));
    NoHighTerm(a, 6, Power(b, 6));
    NoHighTerm(a, 7, Power(b, 7));
    AddZero(p4);
    assert FieldProduct(a, b, 5) == p4;
    assert FieldProduct(a, b, 6) == p4;
    assert FieldProduct(a, b, 7) == p4;
  }

  /** For a factor below 16, FFmul returns the one remainder of the polynomial product. */
  lemma TimesIsPolynomialProduct(a: Byte, b: Elem, r: Elem)
    requires a < 16
    ensures r == Times(a, b) <==> Congruent(PolyProduct(a, b, 8), r)
  {
    hide *;
    TimesIsFieldProduct(a, b);
    RemainderOfProduct(a, b, 8);
    RemainderUnique(PolyProduct(a, b, 8), r);
  }

  lemma TimesAdditive(k: Byte, a: Elem, b: Elem)
    ensures Times(k, Add(a, b)) == Add(Times(k, a), Times(k, b))
  {
    hide Xtime; hide Pick; hide Add;
    var a1, b1 := Xtime(a), Xtime(b);
    var a2, b2 := Xtime(a1), Xtime(b1);
    var a3, b3 := Xtime(a2), Xtime(b2);
    XtimeAdditive(a, b);
    XtimeAdditive(a1, b1);
    XtimeAdditive(a2, b2);
    PickAdditive(k, 0x01, a, b);
    PickAdditive(k, 0x02, a1, b1);
    PickAdditive(k, 0x04, a2, b2);
    PickAdditive(k, 0x08, a3, b3);
    AddZero(ZERO);
    var p0, q0 := Pick(k, 0x01, a), Pick(k, 0x01, b);
    AddExchanges(ZERO, ZERO, p0, q0);
    var p1, q1 := Add(ZERO, p0), Add(ZERO, q0);
    AddExchanges(p1, q1, Pick(k, 0x02, a1), Pick(k, 0x02, b1));
    var p2, q2 := Add(p1, Pick(k, 0x02, a1)), Add(q1, Pick(k, 0x02, b1));
    AddExchanges(p2, q2, Pick(k, 0x04, a2), Pick(k, 0x04, b2));
    var p3, q3 := Add(p2, Pick(k, 0x04, a2)), Add(q2, Pick(k, 0x04, b2));
    AddExchanges(p3, q3, Pick(k, 0x08, a3), Pick(k, 0x08, b3));
  }

  lemma PickAdditive(k: Byte, m: Byte, a: Elem, b: Elem)
    ensures Pick(k, m, Add(a, b)) == Add(Pick(k, m, a), Pick(k, m, b))
  {
    if k & m == 0 {
      AddZero(ZERO);
    }
  }
}
