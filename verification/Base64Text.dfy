/** The text of RFC 4648, section 4, in characters: which character stands for which bits of the data,
    what follows behind them, and which bits the decoder takes from which character. */
module Base64Text {
  import opened Gf256
  import opened Base64

  // ---------- The alphabet, written out ----------

  /** Table 1 of RFC 4648, in rows of sixteen. */
  function Character(n: nat): (c: char)
    requires n < 64
    ensures c as int < 128
  {
    if n < 16 then "ABCDEFGHIJKLMNOP"[n]
    else if n < 32 then "QRSTUVWXYZabcdef"[n - 16]
    else if n < 48 then "ghijklmnopqrstuv"[n - 32]
    else "wxyz0123456789+/"[n - 48]
  }

  function Bit(data: seq<Byte>, i: nat): nat {
    if DataBit(data, i) then 1 else 0
  }

  /** The number that bits i to i + 5 make up, the most significant one first. */
  function SixBits(data: seq<Byte>, i: nat): (n: nat)
    ensures n < 64
  {
    32 * Bit(data, i) + 16 * Bit(data, i + 1) + 8 * Bit(data, i + 2) + 4 * Bit(data, i + 3) + 2 * Bit(data, i + 4)
    + Bit(data, i + 5)
  }

  lemma LowBits(v: Byte, n: nat)
    requires n == SixBits([v], 2)
    ensures v < 64 ==> v as int == n
  {
    assert DataBit([v], 2) == (v & 0x20 != 0);
    assert DataBit([v], 3) == (v & 0x10 != 0);
    assert DataBit([v], 4) == (v & 0x08 != 0);
    assert DataBit([v], 5) == (v & 0x04 != 0);
    assert DataBit([v], 6) == (v & 0x02 != 0);
    assert DataBit([v], 7) == (v & 0x01 != 0);
  }

  lemma FirstRow(v: Byte)
    requires v < 16
    ensures Letter(v) == Character(v as int) as Byte
  {
  }

  lemma SecondRow(v: Byte)
    requires 16 <= v < 32
    ensures Letter(v) == Character(v as int) as Byte
  {
  }

  lemma ThirdRow(v: Byte)
    requires 32 <= v < 48
    ensures Letter(v) == Character(v as int) as Byte
  {
  }

  lemma FourthRow(v: Byte)
    requires 48 <= v < 64
    ensures Letter(v) == Character(v as int) as Byte
  {
  }

  lemma RowOf(v: Byte)
    requires v < 64
    ensures v as int < 64 && Letter(v) == Character(v as int) as Byte
  {
    hide Letter; hide Character;
    if v < 16 { FirstRow(v); } else if v < 32 { SecondRow(v); } else if v < 48 { ThirdRow(v); } else { FourthRow(v); }
  }

  lemma LetterIsCharacter(v: Byte)
    requires v < 64
    ensures Letter(v) == Character(SixBits([v], 2)) as Byte
  {
    hide *;
    LowBits(v, SixBits([v], 2));
    RowOf(v);
  }

  // ---------- The encoded text ----------

  lemma {:induction false} EncodedIsLetter(data: seq<Byte>, k: nat)
    requires 6 * k < 8 * |data|
    ensures k < |Encode(data)| && Value(Encode(data)[k]) < 64
  {
    if k < 4 {
      var g := FirstGroup(data);
      hide *;
      EncodedDigit(data, k);
      GroupDigitOf(g[0], g[1], g[2], k);
      GroupDigitIsSmall(g[0], g[1], g[2], k);
    } else {
      hide Quad; hide Value;
      EncodedIsLetter(data[3..], k - 4);
    }
  }

  lemma GroupDigitIsSmall(a: Byte, b: Byte, c: Byte, k: nat)
    ensures GroupDigit(a, b, c, k) < 64
  {
    hide Digit0; hide Digit1; hide Digit2; hide Digit3;
    DigitsAreSmall(a, b);
    DigitsAreSmall(b, c);
    DigitsAreSmall(c, c);
  }

  /** Bit j of the number v is bit 6k + j of the data. */
  predicate Agrees(v: Byte, data: seq<Byte>, k: nat, j: nat)
    requires j < 6
  {
    BitAt(v, 2 + j) == DataBit(data, 6 * k + j)
  }

  lemma AgreesIs(v: Byte, data: seq<Byte>, k: nat, j: nat)
    requires j < 6
    ensures Agrees(v, data, k, j) <==> BitAt(v, 2 + j) == DataBit(data, 6 * k + j)
  {
  }

  lemma BitOfOne(v: Byte, i: nat)
    requires i < 8
    ensures DataBit([v], i) == BitAt(v, i)
  {
    hide BitAt;
  }

  lemma SameBit(v: Byte, data: seq<Byte>, k: nat, j: nat)
    requires j < 6 && Agrees(v, data, k, j)
    ensures Bit([v], 2 + j) == Bit(data, 6 * k + j)
  {
    hide BitAt;
    BitOfOne(v, 2 + j);
  }

  lemma SixBitsAre(data: seq<Byte>, i: nat)
    ensures SixBits(data, i) == 32 * Bit(data, i) + 16 * Bit(data, i + 1) + 8 * Bit(data, i + 2)
                                + 4 * Bit(data, i + 3) + 2 * Bit(data, i + 4) + Bit(data, i + 5)
  {
  }

  lemma SameSixBits(v: Byte, data: seq<Byte>, k: nat)
    requires forall j: nat :: j < 6 ==> Agrees(v, data, k, j)
    ensures SixBits([v], 2) == SixBits(data, 6 * k)
  {
    hide *;
    SameBit(v, data, k, 0);
    SameBit(v, data, k, 1);
    SameBit(v, data, k, 2);
    SameBit(v, data, k, 3);
    SameBit(v, data, k, 4);
    SameBit(v, data, k, 5);
    SixBitsAre([v], 2);
    SixBitsAre(data, 6 * k);
  }

  lemma {:induction false} EncodedPads(data: seq<Byte>, k: nat)
    requires 8 * |data| <= 6 * k && k < |Encode(data)|
    ensures Encode(data)[k] == 0x3d
  {
    hide Group;
    if |data| > 3 {
      EncodedPads(data[3..], k - 4);
    }
  }

  /** Character k of the text is the one whose number is bits 6k to 6k + 5 of the data, with zeros
      behind its end; behind the last such character there are padding characters only. */
  lemma EncodedCharacter(data: seq<Byte>, k: nat)
    requires k < |Encode(data)|
    ensures Encode(data)[k] == if 6 * k < 8 * |data| then Character(SixBits(data, 6 * k)) as Byte else '=' as Byte
  {
    hide *;
    if 6 * k < 8 * |data| {
      var c := Encode(data)[k];
      EncodedIsLetter(data, k);
      forall j: nat | j < 6 ensures Agrees(Value(c), data, k, j) {
        EncodesBits(data, k, j);
        AgreesIs(Value(c), data, k, j);
      }
      SameSixBits(Value(c), data, k);
      LetterIsCharacter(Value(c));
      LetterIs(Value(c), c);
    } else {
      EncodedPads(data, k);
    }
  }

  // ---------- The decoded bits ----------

  /** The number that the decoder gives to a character: its number in the alphabet, or eight ones
      if it is not in it. */
  lemma ValueIs(c: Byte)
    ensures Value(c) < 64 ==> c == Character(SixBits([Value(c)], 2)) as Byte
    ensures Value(c) >= 64 ==> Value(c) == 0xff && forall n: nat :: n < 64 ==> c != Character(n) as Byte
  {
    hide *;
    ValueIsDigit(c);
    if Value(c) < 64 {
      LetterIsCharacter(Value(c));
      LetterIs(Value(c), c);
    } else {
      forall n: nat | n < 64 ensures c != Character(n) as Byte {
        var v := n as Byte;
        RowOf(v);
        ValueOfLetter(v);
      }
    }
  }

  lemma FirstDecodedBits(t0: Byte, t1: Byte, i: nat)
    requires i < 8
    ensures BitAt(Byte0(t0, t1), i) == BitAt(if i < 6 then t0 else t1, 2 + i % 6)
  {
    if i == 0 {} else if i == 1 {} else if i == 2 {} else if i == 3 {} else if i == 4 {} else if i == 5 {} else
    if i == 6 {}
  }

  lemma SecondDecodedBits(t1: Byte, t2: Byte, i: nat)
    requires i < 8
    ensures BitAt(Byte1(t1, t2), i) == BitAt(if i < 4 then t1 else t2, 2 + (i + 2) % 6)
  {
    if i == 0 {} else if i == 1 {} else if i == 2 {} else if i == 3 {} else if i == 4 {} else if i == 5 {} else
    if i == 6 {}
  }

  lemma ThirdDecodedBits(t2: Byte, t3: Byte, i: nat)
    requires i < 8
    ensures BitAt(Byte2(t2, t3), i) == BitAt(if i < 2 then t2 else t3, 2 + (i + 4) % 6)
  {
    if i == 0 {} else if i == 1 {} else if i == 2 {} else if i == 3 {} else if i == 4 {} else if i == 5 {} else
    if i == 6 {}
  }

  lemma QuadBit(quad: seq<Byte>, i: nat)
    requires |quad| == 4 && i < 8 * |Unquad(quad)|
    ensures DataBit(Unquad(quad), i) == BitAt(Value(quad[i / 6]), 2 + i % 6)
  {
    hide BitAt; hide Value; hide Byte0; hide Byte1; hide Byte2; hide PAD;
    if i < 8 {
      FirstDecodedBits(Value(quad[0]), Value(quad[1]), i);
    } else if i < 16 {
      SecondDecodedBits(Value(quad[1]), Value(quad[2]), i - 8);
    } else {
      ThirdDecodedBits(Value(quad[2]), Value(quad[3]), i - 16);
    }
  }

  lemma UnquadLength(quad: seq<Byte>)
    requires |quad| == 4
    ensures |Unquad(quad)| == if quad[2] == 0x3d then 1 else if quad[3] == 0x3d then 2 else 3
    ensures IsLast(quad) <==> |Unquad(quad)| < 3
  {
    hide Value; hide Byte0; hide Byte1; hide Byte2;
  }

  lemma DataBitBehind(front: seq<Byte>, rest: seq<Byte>, i: nat)
    requires |front| == 3
    ensures DataBit(front + rest, i) == if i < 24 then DataBit(front, i) else DataBit(rest, i - 24)
  {
    hide BitAt;
    if i >= 24 {
      assert (i - 24) % 8 == i % 8 && (i - 24) / 8 == i / 8 - 3;
    }
  }

  /** Bits 6k to 6k + 5 of what the decoder gives are those of the number of character k, whether or
      not it is in the alphabet. */
  lemma {:induction false} DecodedBit(text: seq<Byte>, i: nat)
    requires Readable(text) && i < 8 * |Decode(text)|
    ensures i / 6 < |text|
    ensures DataBit(Decode(text), i) == BitAt(Value(text[i / 6]), 2 + i % 6)
  {
    hide BitAt; hide Value; hide Unquad; hide DataBit; hide NUL; hide IsLast;
    var quad := FirstQuad(text);
    NoPadTerminates(text);
    UnquadLength(quad);
    if i < 8 * |Unquad(quad)| {
      QuadBit(quad, i);
    } else {
      DecodedBit(text[4..], i - 24);
      assert text[i / 6] == text[4..][(i - 24) / 6];
    }
    if !IsLast(quad) {
      DataBitBehind(Unquad(quad), Decode(text[4..]), i);
    } else {
      assert Decode(text) == Unquad(quad) + [] == Unquad(quad);
    }
  }

  /** The decoder stops in the quadruple of the first padding character at a third or fourth place. */
  lemma {:induction false} DecodedLength(text: seq<Byte>, k: nat)
    requires Readable(text) && k <= |text|
    requires forall j: nat :: j < k ==> !PadsAt(text, j)
    requires k == |text| || PadsAt(text, k)
    ensures |Decode(text)| == k / 4 * 3 + (if k % 4 == 0 then 0 else k % 4 - 1)
  {
    hide Unquad; hide IsLast;
    if |text| > 0 {
      var quad := FirstQuad(text);
      NoPadTerminates(text);
      UnquadLength(quad);
      assert PadsAt(text, 2) <==> quad[2] == 0x3d;
      assert PadsAt(text, 3) <==> quad[3] == 0x3d;
      if !IsLast(quad) {
        assert forall j: nat :: PadsAt(text[4..], j) <==> PadsAt(text, j + 4);
        DecodedLength(text[4..], k - 4);
        assert (k - 4) / 4 == k / 4 - 1 && (k - 4) % 4 == k % 4;
        assert |Decode(text)| == 3 + |Decode(text[4..])|;
      } else {
        assert k == if quad[2] == 0x3d then 2 else 3;
        assert Decode(text) == Unquad(quad) + [];
      }
    }
  }
}
