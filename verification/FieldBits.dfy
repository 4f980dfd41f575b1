/** The field product on the bits of bytes, term by term, and exactly when the multiplier of the
    cipher, which looks at the low four bits of its first factor only, gives this product. */
module FieldBits {
  import opened Gf256

  function Plus(s: Byte, t: Byte): Byte {
    s ^ t
  }

  function Term(a: Byte, m: Byte, b: Byte): Byte {
    if a & m != 0 then b else 0
  }

  /** The sum of the multiples of b by 1, x, ..., x^7 that the bits of a select. */
  function Product(a: Byte, b: Byte): Byte {
    var b1 := XtimeBits(b);
    var b2 := XtimeBits(b1);
    var b3 := XtimeBits(b2);
    var b4 := XtimeBits(b3);
    var b5 := XtimeBits(b4);
    var b6 := XtimeBits(b5);
    var b7 := XtimeBits(b6);
    var s1 := Plus(Plus(0, Term(a, 0x01, b)), Term(a, 0x02, b1));
    var s3 := Plus(Plus(s1, Term(a, 0x04, b2)), Term(a, 0x08, b3));
    var s5 := Plus(Plus(s3, Term(a, 0x10, b4)), Term(a, 0x20, b5));
    Plus(Plus(s5, Term(a, 0x40, b6)), Term(a, 0x80, b7))
  }

  lemma TermIsPick(a: Byte, m: Byte, b: Byte, sum: Byte)
    ensures Add(Elem(sum), Pick(a, m, Elem(b))) == Elem(Plus(sum, Term(a, m, b)))
  {
  }

  function PowerBits(b: Byte, i: nat): Byte {
    if i == 0 then b else XtimeBits(PowerBits(b, i - 1))
  }

  function PartialProduct(a: Byte, b: Byte, n: nat): Byte {
    if n == 0 then 0 else Plus(PartialProduct(a, b, n - 1), Term(a, Mask(n - 1), PowerBits(b, n - 1)))
  }

  lemma {:induction false} PowerOfBits(b: Byte, i: nat)
    ensures Power(Elem(b), i) == Elem(PowerBits(b, i))
  {
    hide XtimeBits;
    if i > 0 {
      PowerOfBits(b, i - 1);
    }
  }

  lemma {:induction false} PartialFieldProduct(a: Byte, b: Byte, n: nat)
    ensures FieldProduct(a, Elem(b), n) == Elem(PartialProduct(a, b, n))
  {
    hide Add; hide Pick; hide Term; hide Plus; hide Mask; hide Power; hide PowerBits;
    if n > 0 {
      PartialFieldProduct(a, b, n - 1);
      PowerOfBits(b, n - 1);
      TermIsPick(a, Mask(n - 1), PowerBits(b, n - 1), PartialProduct(a, b, n - 1));
    }
  }

  lemma PowersUnrolled(b: Byte)
    ensures PowerBits(b, 1) == XtimeBits(PowerBits(b, 0)) && PowerBits(b, 2) == XtimeBits(PowerBits(b, 1))
    ensures PowerBits(b, 3) == XtimeBits(PowerBits(b, 2)) && PowerBits(b, 4) == XtimeBits(PowerBits(b, 3))
    ensures PowerBits(b, 5) == XtimeBits(PowerBits(b, 4)) && PowerBits(b, 6) == XtimeBits(PowerBits(b, 5))
    ensures PowerBits(b, 7) == XtimeBits(PowerBits(b, 6)) && PowerBits(b, 0) == b
  {
    hide XtimeBits;
  }

  lemma PartialStep(a: Byte, b: Byte, n: nat, m: Byte)
    requires m == Mask(n)
    ensures PartialProduct(a, b, n + 1) == Plus(PartialProduct(a, b, n), Term(a, m, PowerBits(b, n)))
  {
    hide Term; hide PowerBits; hide Plus; hide Mask;
  }

  lemma ProductUnrolled(a: Byte, b: Byte)
    ensures PartialProduct(a, b, 8) == Product(a, b)
  {
    hide Term; hide PowerBits; hide Plus; hide XtimeBits; hide PartialProduct;
    PowersUnrolled(b);
    assert PartialProduct(a, b, 0) == 0 by { PartialStart(a, b); }
    PartialStep(a, b, 0, 0x01); PartialStep(a, b, 1, 0x02); PartialStep(a, b, 2, 0x04); PartialStep(a, b, 3, 0x08);
    PartialStep(a, b, 4, 0x10); PartialStep(a, b, 5, 0x20); PartialStep(a, b, 6, 0x40); PartialStep(a, b, 7, 0x80);
  }

  lemma PartialStart(a: Byte, b: Byte)
    ensures PartialProduct(a, b, 0) == 0
  {
  }

  lemma ProductIsFieldProduct(a: Byte, b: Byte)
    ensures Elem(Product(a, b)) == FieldProduct(a, Elem(b), 8)
  {
    hide *;
    ProductUnrolled(a, b);
    PartialFieldProduct(a, b, 8);
  }

  // ---------- The multiplier and the field product ----------

  /** The terms that FFmul adds up. */
  function LowProduct(a: Byte, b: Byte): Byte {
    var b1 := XtimeBits(b);
    var b2 := XtimeBits(b1);
    var b3 := XtimeBits(b2);
    var s1 := Plus(Plus(0, Term(a, 0x01, b)), Term(a, 0x02, b1));
    Plus(Plus(s1, Term(a, 0x04, b2)), Term(a, 0x08, b3))
  }

  lemma TimesIsLowProduct(a: Byte, b: Byte)
    ensures Times(a, Elem(b)) == Elem(LowProduct(a, b))
  {
    var b1 := XtimeBits(b);
    var b2 := XtimeBits(b1);
    var b3 := XtimeBits(b2);
    hide XtimeBits; hide Add; hide Pick; hide Plus; hide Term;
    TermIsPick(a, 0x01, b, 0);
    var s0 := Plus(0, Term(a, 0x01, b));
    TermIsPick(a, 0x02, b1, s0);
    var s1 := Plus(s0, Term(a, 0x02, b1));
    TermIsPick(a, 0x04, b2, s1);
    TermIsPick(a, 0x08, b3, Plus(s1, Term(a, 0x04, b2)));
  }

  /** The terms that it leaves out, over c = x^4 b. */
  function HighProduct(a: Byte, c: Byte): Byte {
    var c1 := XtimeBits(c);
    var c2 := XtimeBits(c1);
    var c3 := XtimeBits(c2);
    Plus(Plus(Plus(Term(a, 0x10, c), Term(a, 0x20, c1)), Term(a, 0x40, c2)), Term(a, 0x80, c3))
  }

  /** They have no zero divisors: they cancel only if none is selected, or c is 0. */
  lemma HighTermsStay(a: Byte, c: Byte)
    ensures HighProduct(a, c) == 0 <==> a < 0x10 || c == 0
  {
  }

  lemma XtimeOfZero(b: Byte)
    ensures XtimeBits(b) == 0 <==> b == 0
  {
  }

  lemma PlusRegroups(s: Byte, t0: Byte, t1: Byte, t2: Byte, t3: Byte)
    ensures Plus(Plus(Plus(Plus(s, t0), t1), t2), t3) == Plus(s, Plus(Plus(Plus(t0, t1), t2), t3))
  {
  }

  lemma PlusKeeps(s: Byte, t: Byte)
    ensures Plus(s, t) == s <==> t == 0
  {
  }

  lemma ProductIsLow(a: Byte, b: Byte)
    ensures Product(a, b) == LowProduct(a, b) <==> a < 0x10 || b == 0
  {
    var b1 := XtimeBits(b);
    var b2 := XtimeBits(b1);
    var b3 := XtimeBits(b2);
    var b4 := XtimeBits(b3);
    var b5 := XtimeBits(b4);
    var b6 := XtimeBits(b5);
    hide XtimeBits; hide Plus; hide Term;
    PlusRegroups(LowProduct(a, b), Term(a, 0x10, b4), Term(a, 0x20, b5), Term(a, 0x40, b6),
                 Term(a, 0x80, XtimeBits(b6)));
    PlusKeeps(LowProduct(a, b), HighProduct(a, b4));
    HighTermsStay(a, b4);
    XtimeOfZero(b);
    XtimeOfZero(b1);
    XtimeOfZero(b2);
    XtimeOfZero(b3);
  }

  /** FFmul gives the remainder of the polynomial product if and only if its first factor is
      below 16 or its second one is 0. */
  lemma TimesIsExact(a: Byte, b: Elem)
    ensures Times(a, b) == FieldProduct(a, b, 8) <==> a < 16 || b == ZERO
    ensures Congruent(PolyProduct(a, b, 8), Times(a, b)) <==> a < 16 || b == ZERO
  {
    assert b == Elem(b.bits) && ZERO == Elem(0);
    hide *;
    ProductIsLow(a, b.bits);
    TimesIsLowProduct(a, b.bits);
    ProductIsFieldProduct(a, b.bits);
    RemainderOfProduct(a, b, 8);
    RemainderUnique(PolyProduct(a, b, 8), Times(a, b));
  }
}
