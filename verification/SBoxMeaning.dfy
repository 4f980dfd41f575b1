/** What the substitution table means (FIPS 197, section 5.1.1): the multiplicative inverse
    in GF(2^8), followed by an affine transformation of the bits. */
module SBoxMeaning {
  import opened Gf256
  import opened AesTables
  import opened FieldBits

  /** The affine transformation: each bit is the sum of five bits, and 0x63 is added. */
  function Affine(y: Byte): Byte {
    y ^ ((y << 1) | (y >> 7)) ^ ((y << 2) | (y >> 6)) ^ ((y << 3) | (y >> 5)) ^ ((y << 4) | (y >> 4)) ^ 0x63
  }

  function InvAffine(s: Byte): Byte {
    ((s << 1) | (s >> 7)) ^ ((s << 3) | (s >> 5)) ^ ((s << 6) | (s >> 2)) ^ 0x05
  }

  lemma AffineInverse(s: Byte)
    ensures Affine(InvAffine(s)) == s
  {
  }

  // ---------- The table, row by row ----------

  predicate IsInverse(x: Byte, y: Byte) {
    if x == 0 then y == 0 else Product(x, y) == 0x01
  }

  lemma RowOfInverses0(x: Byte)
    requires 0x00 <= x < 0x10
    ensures IsInverse(x, InvAffine(SBoxRow0(x)))
  {
  }

  lemma RowOfInverses1(x: Byte)
    requires 0x10 <= x < 0x20
    ensures IsInverse(x, InvAffine(SBoxRow1(x)))
  {
  }

  lemma RowOfInverses2(x: Byte)
    requires 0x20 <= x < 0x30
    ensures IsInverse(x, InvAffine(SBoxRow2(x)))
  {
  }

  lemma RowOfInverses3(x: Byte)
    requires 0x30 <= x < 0x40
    ensures IsInverse(x, InvAffine(SBoxRow3(x)))
  {
  }

  lemma RowOfInverses4(x: Byte)
    requires 0x40 <= x < 0x50
    ensures IsInverse(x, InvAffine(SBoxRow4(x)))
  {
  }

  lemma RowOfInverses5(x: Byte)
    requires 0x50 <= x < 0x60
    ensures IsInverse(x, InvAffine(SBoxRow5(x)))
  {
  }

  lemma RowOfInverses6(x: Byte)
    requires 0x60 <= x < 0x70
    ensures IsInverse(x, InvAffine(SBoxRow6(x)))
  {
  }

  lemma RowOfInverses7(x: Byte)
    requires 0x70 <= x < 0x80
    ensures IsInverse(x, InvAffine(SBoxRow7(x)))
  {
  }

  lemma RowOfInverses8(x: Byte)
    requires 0x80 <= x < 0x90
    ensures IsInverse(x, InvAffine(SBoxRow8(x)))
  {
  }

  lemma RowOfInverses9(x: Byte)
    requires 0x90 <= x < 0xa0
    ensures IsInverse(x, InvAffine(SBoxRow9(x)))
  {
  }

  lemma RowOfInversesA(x: Byte)
    requires 0xa0 <= x < 0xb0
    ensures IsInverse(x, InvAffine(SBoxRowA(x)))
  {
  }

  lemma RowOfInversesB(x: Byte)
    requires 0xb0 <= x < 0xc0
    ensures IsInverse(x, InvAffine(SBoxRowB(x)))
  {
  }

  lemma RowOfInversesC(x: Byte)
    requires 0xc0 <= x < 0xd0
    ensures IsInverse(x, InvAffine(SBoxRowC(x)))
  {
  }

  lemma RowOfInversesD(x: Byte)
    requires 0xd0 <= x < 0xe0
    ensures IsInverse(x, InvAffine(SBoxRowD(x)))
  {
  }

  lemma RowOfInversesE(x: Byte)
    requires 0xe0 <= x < 0xf0
    ensures IsInverse(x, InvAffine(SBoxRowE(x)))
  {
  }

  lemma RowOfInversesF(x: Byte)
    requires 0xf0 <= x
    ensures IsInverse(x, InvAffine(SBoxRowF(x)))
  {
  }

  lemma TableOfInverses(x: Byte)
    ensures IsInverse(x, InvAffine(SBox(x)))
  {
    hide IsInverse; hide InvAffine; hide SBoxRow0; hide SBoxRow1; hide SBoxRow2; hide SBoxRow3; hide SBoxRow4;
    hide SBoxRow5; hide SBoxRow6; hide SBoxRow7; hide SBoxRow8; hide SBoxRow9; hide SBoxRowA; hide SBoxRowB;
    hide SBoxRowC; hide SBoxRowD; hide SBoxRowE; hide SBoxRowF;
    if x < 0x40 {
      if x < 0x10 { RowOfInverses0(x); } else if x < 0x20 { RowOfInverses1(x); } else
      if x < 0x30 { RowOfInverses2(x); } else { RowOfInverses3(x); }
    } else if x < 0x80 {
      if x < 0x50 { RowOfInverses4(x); } else if x < 0x60 { RowOfInverses5(x); } else
      if x < 0x70 { RowOfInverses6(x); } else { RowOfInverses7(x); }
    } else if x < 0xc0 {
      if x < 0x90 { RowOfInverses8(x); } else if x < 0xa0 { RowOfInverses9(x); } else
      if x < 0xb0 { RowOfInversesA(x); } else { RowOfInversesB(x); }
    } else {
      if x < 0xd0 { RowOfInversesC(x); } else if x < 0xe0 { RowOfInversesD(x); } else
      if x < 0xf0 { RowOfInversesE(x); } else { RowOfInversesF(x); }
    }
  }

  /** Every entry of the table is the affine image of the inverse of its index: of a byte whose
      product with the index leaves the remainder 1, or of 0 for the index 0. */
  lemma SBoxIsAffineInverse(x: Byte)
    ensures
      var y := InvAffine(SBox(x));
      && SBox(x) == Affine(y)
      && (x == 0 ==> y == 0)
      && (x != 0 ==> Remainder(PolyProduct(x, Elem(y), 8)) == Elem(0x01))
  {
    hide SBox; hide Affine; hide InvAffine; hide Product; hide Remainder; hide PolyProduct; hide FieldProduct;
    var y := InvAffine(SBox(x));
    AffineInverse(SBox(x));
    TableOfInverses(x);
    ProductIsFieldProduct(x, y);
    RemainderOfProduct(x, Elem(y), 8);
  }
}
