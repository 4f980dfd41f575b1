/** The base64 coder of the library (RFC 4648, section 4), over C strings whose characters
    are bytes in ASCII. */
module Base64 {
  import opened Gf256

  const PAD: Byte := 0x3d
  const NUL: Byte := 0x00

  // ---------- The alphabet ----------

  /** Character number `k` of the alphabet A-Z a-z 0-9 + /. */
  function Letter(k: Byte): Byte {
    if k < 26 then 0x41 + k
    else if k < 52 then 0x61 + (k - 26)
    else if k < 62 then 0x30 + (k - 52)
    else if k == 62 then 0x2b else 0x2f
  }

  /** The number of a character, 0xff for those outside of the alphabet. */
  function Value(c: Byte): Byte {
    if 0x41 <= c <= 0x5a then c - 0x41
    else if 0x61 <= c <= 0x7a then c - 0x61 + 26
    else if 0x30 <= c <= 0x39 then c - 0x30 + 52
    else if c == 0x2b then 62 else if c == 0x2f then 63 else 0xff
  }

  lemma LetterIs(k: Byte, c: Byte)
    requires k < 64
    ensures Letter(k) == c <==> Value(c) == k
  {
  }

  lemma LetterIsText(k: Byte)
    requires k < 64
    ensures Letter(k) != PAD && Letter(k) != NUL
  {
  }

  // ---------- Six-bit digits and the bytes they make up ----------

  function Digit0(a: Byte): Byte { (a >> 2) & 0x3f }

  function Digit1(a: Byte, b: Byte): Byte { ((a << 4) & 0x30) | ((b >> 4) & 0x0f) }

  function Digit2(b: Byte, c: Byte): Byte { ((b << 2) & 0x3c) | ((c >> 6) & 0x03) }

  function Digit3(c: Byte): Byte { c & 0x3f }

  function Byte0(t0: Byte, t1: Byte): Byte { ((t0 << 2) & 0xfc) | ((t1 >> 4) & 0x03) }

  function Byte1(t1: Byte, t2: Byte): Byte { ((t1 << 4) & 0xf0) | ((t2 >> 2) & 0x0f) }

  function Byte2(t2: Byte, t3: Byte): Byte { ((t2 << 6) & 0xf0) | (t3 & 0x3f) }

  lemma DigitsAreSmall(a: Byte, b: Byte)
    ensures Digit0(a) < 64 && Digit1(a, b) < 64 && Digit2(a, b) < 64 && Digit3(a) < 64
  {
  }

  lemma BytesFromDigits(a: Byte, b: Byte, c: Byte)
    ensures Byte0(Digit0(a), Digit1(a, b)) == a
    ensures Byte1(Digit1(a, b), Digit2(b, c)) == b
    ensures Byte2(Digit2(b, c), Digit3(c)) == c
  {
  }

  // ---------- The code ----------

  function GroupDigit(a: Byte, b: Byte, c: Byte, k: nat): Byte {
    if k == 0 then Digit0(a) else if k == 1 then Digit1(a, b) else if k == 2 then Digit2(b, c) else Digit3(c)
  }

  /** The four characters for a group of three bytes. */
  function Group(a: Byte, b: Byte, c: Byte): (g: seq<Byte>)
    ensures |g| == 4
  {
    seq(4, k requires 0 <= k < 4 => Letter(GroupDigit(a, b, c, k)))
  }

  /** The four characters for the first three bytes, or for the one or two that are left. */
  function Quad(data: seq<Byte>): (q: seq<Byte>)
    requires |data| > 0
    ensures |q| == 4
  {
    if |data| == 1 then Group(data[0], 0, 0)[..2] + [PAD, PAD]
    else if |data| == 2 then Group(data[0], data[1], 0)[..3] + [PAD]
    else Group(data[0], data[1], data[2])
  }

  /** A text of whole quadruples. */
  predicate Whole(text: seq<Byte>) {
    |text| % 4 == 0
  }

  /** The length of the text for `n` bytes: four characters for every three that are begun. */
  function TextLength(n: nat): nat {
    if n == 0 then 0 else 4 + (if n < 3 then 0 else TextLength(n - 3))
  }

  lemma {:induction false} TextLengthIs(n: nat)
    ensures TextLength(n) == (n + 2) / 3 * 4
  {
    if n >= 3 {
      TextLengthIs(n - 3);
    }
  }

  function Encode(data: seq<Byte>): (text: seq<Byte>)
    ensures |text| == TextLength(|data|)
    ensures Whole(text)
  {
    if |data| == 0 then [] else Quad(data) + (if |data| < 3 then [] else Encode(data[3..]))
  }

  /** A quadruple that ends the text as far as the decoder is concerned. */
  predicate IsLast(quad: seq<Byte>)
    requires |quad| == 4
  {
    quad[2] == PAD || quad[3] == PAD
  }

  /** The bytes of a quadruple, with whatever its characters outside of the alphabet give. */
  function Unquad(quad: seq<Byte>): (data: seq<Byte>)
    requires |quad| == 4
    ensures 1 <= |data| <= 3
  {
    if quad[2] == PAD then [Byte0(Value(quad[0]), Value(quad[1]))]
    else if quad[3] == PAD then
      [Byte0(Value(quad[0]), Value(quad[1])), Byte1(Value(quad[1]), Value(quad[2]))]
    else
      [Byte0(Value(quad[0]), Value(quad[1])), Byte1(Value(quad[1]), Value(quad[2])),
       Byte2(Value(quad[2]), Value(quad[3]))]
  }

  /** The four characters that a turn of the decoder reads, perhaps with the terminator. */
  function FirstQuad(text: seq<Byte>): (quad: seq<Byte>)
    requires |text| >= 3
    ensures |quad| == 4
  {
    (text + [NUL])[..4]
  }

  /** A text that the decoder reads without leaving it: each quadruple lies within the text and
      its terminator, until one ends the text. */
  predicate Readable(text: seq<Byte>) {
    |text| == 0 || (|text| >= 3 && (IsLast(FirstQuad(text)) || (|text| >= 4 && Readable(text[4..]))))
  }

  /** What the decoder makes of any such text, well-formed or not. */
  function Decode(text: seq<Byte>): seq<Byte>
    requires Readable(text)
  {
    if |text| == 0 then []
    else Unquad(FirstQuad(text)) + (if IsLast(FirstQuad(text)) then [] else Decode(text[4..]))
  }

  lemma PadIsText()
    ensures PAD != NUL
  {
  }

  lemma TerminatorIs()
    ensures NUL == 0x00
  {
  }

  predicate PadsAt(text: seq<Byte>, k: nat) {
    k < |text| && k % 4 >= 2 && text[k] == 0x3d
  }

  /** These are the texts of whole quadruples, and those with a padding character in the third or
      fourth place of some quadruple, however they end. */
  lemma {:induction false} ReadableIs(text: seq<Byte>)
    ensures Readable(text) <==> Whole(text) || exists k: nat :: PadsAt(text, k)
  {
    hide NUL;
    PadIsText();
    if |text| >= 3 {
      if IsLast(FirstQuad(text)) {
        assert PadsAt(text, if text[2] == PAD then 2 else 3);
      } else if |text| >= 4 {
        var rest := text[4..];
        ReadableIs(rest);
        if k: nat :| PadsAt(text, k) {
          assert k >= 4 && PadsAt(rest, k - 4);
        }
        if k: nat :| PadsAt(rest, k) {
          assert PadsAt(text, k + 4);
        }
      }
    }
  }

  lemma ValueOfLetter(k: Byte)
    requires k < 64
    ensures Value(Letter(k)) == k
  {
    hide Letter; hide Value;
    LetterIs(k, Letter(k));
  }

  /** The characters of a group stand for its digits, and are neither padding nor terminator. */
  lemma GroupDigits(a: Byte, b: Byte, c: Byte)
    ensures Value(Group(a, b, c)[0]) == Digit0(a) && Value(Group(a, b, c)[1]) == Digit1(a, b)
    ensures Value(Group(a, b, c)[2]) == Digit2(b, c) && Value(Group(a, b, c)[3]) == Digit3(c)
    ensures forall k :: 0 <= k < 4 ==> Group(a, b, c)[k] != PAD && Group(a, b, c)[k] != NUL
  {
    hide Letter; hide Value; hide Digit0; hide Digit1; hide Digit2; hide Digit3; hide PAD; hide NUL;
    DigitsAreSmall(a, b);
    DigitsAreSmall(b, c);
    DigitsAreSmall(c, c);
    ValueOfLetter(Digit0(a));
    ValueOfLetter(Digit1(a, b));
    ValueOfLetter(Digit2(b, c));
    ValueOfLetter(Digit3(c));
    LetterIsText(Digit0(a));
    LetterIsText(Digit1(a, b));
    LetterIsText(Digit2(b, c));
    LetterIsText(Digit3(c));
  }

  lemma GroupRoundTrip(a: Byte, b: Byte, c: Byte)
    ensures Byte0(Value(Group(a, b, c)[0]), Value(Group(a, b, c)[1])) == a
    ensures Byte1(Value(Group(a, b, c)[1]), Value(Group(a, b, c)[2])) == b
    ensures Byte2(Value(Group(a, b, c)[2]), Value(Group(a, b, c)[3])) == c
  {
    hide *;
    GroupDigits(a, b, c);
    BytesFromDigits(a, b, c);
  }

  lemma OneByteRoundTrip(data: seq<Byte>)
    requires |data| == 1
    ensures Unquad(Quad(data)) == data && IsLast(Quad(data))
  {
    hide Group; hide Value; hide Byte0; hide Byte1; hide Byte2;
    GroupRoundTrip(data[0], 0, 0);
  }

  lemma TwoByteRoundTrip(data: seq<Byte>)
    requires |data| == 2
    ensures Unquad(Quad(data)) == data && IsLast(Quad(data))
  {
    hide Group; hide Value; hide Byte0; hide Byte1; hide Byte2;
    GroupRoundTrip(data[0], data[1], 0);
    GroupDigits(data[0], data[1], 0);
  }

  lemma ThreeByteRoundTrip(data: seq<Byte>)
    requires |data| >= 3
    ensures Unquad(Quad(data)) == data[..3] && !IsLast(Quad(data))
  {
    hide Group; hide Value; hide Byte0; hide Byte1; hide Byte2; hide PAD;
    GroupRoundTrip(data[0], data[1], data[2]);
    GroupDigits(data[0], data[1], data[2]);
  }

  lemma DecodeFirst(quad: seq<Byte>, rest: seq<Byte>)
    requires |quad| == 4 && Readable(rest) && (IsLast(quad) ==> rest == [])
    ensures Readable(quad + rest) && Decode(quad + rest) == Unquad(quad) + (if IsLast(quad) then [] else Decode(rest))
  {
    hide Unquad; hide IsLast;
    assert FirstQuad(quad + rest) == quad && (quad + rest)[4..] == rest;
  }

  lemma DecodeNothing()
    ensures Readable([]) && Decode([]) == []
  {
  }

  /** Decoding gives back the encoded bytes, for every length. */
  lemma {:induction false} RoundTrip(data: seq<Byte>)
    ensures Readable(Encode(data)) && Decode(Encode(data)) == data
  {
    hide Quad; hide Decode; hide Unquad; hide IsLast; hide Whole; hide TextLength; hide Readable;
    DecodeNothing();
    if |data| > 0 {
      if |data| == 1 {
        OneByteRoundTrip(data);
      } else if |data| == 2 {
        TwoByteRoundTrip(data);
      } else {
        ThreeByteRoundTrip(data);
        RoundTrip(data[3..]);
      }
      DecodeFirst(Quad(data), if |data| < 3 then [] else Encode(data[3..]));
    }
  }

  lemma {:induction false} EncodedIsText(data: seq<Byte>)
    ensures 0x00 !in Encode(data)
  {
    TerminatorIs();
    hide Group; hide PAD; hide NUL;
    PadIsText();
    if |data| > 0 {
      GroupDigits(data[0], if |data| > 1 then data[1] else 0, if |data| > 2 then data[2] else 0);
      if |data| > 3 {
        EncodedIsText(data[3..]);
      }
    }
  }

  /** The buffer that enrolment allocates holds the text and its terminator, except for one byte. */
  lemma EncodedFits(n: nat)
    ensures TextLength(n) + 1 <= 2 * n + 1 <==> n != 1
  {
    TextLengthIs(n);
  }

  // ---------- What the digits mean ----------

  /** Bit `i` of a byte, the most significant one first. */
  predicate BitAt(x: Byte, i: nat)
    requires i < 8
  {
    x & (if i == 0 then 0x80 else if i == 1 then 0x40 else if i == 2 then 0x20 else if i == 3 then 0x10 else
         if i == 4 then 0x08 else if i == 5 then 0x04 else if i == 6 then 0x02 else 0x01) != 0
  }

  predicate DataBit(data: seq<Byte>, i: nat) {
    i / 8 < |data| && BitAt(data[i / 8], i % 8)
  }

  lemma FirstByteBits(a: Byte, b: Byte, i: nat)
    requires i < 8
    ensures BitAt(if i < 6 then Digit0(a) else Digit1(a, b), 2 + i % 6) == BitAt(a, i)
  {
    if i == 0 {} else if i == 1 {} else if i == 2 {} else if i == 3 {} else if i == 4 {} else if i == 5 {} else
    if i == 6 {}
  }

  lemma SecondByteBits(a: Byte, b: Byte, c: Byte, i: nat)
    requires i < 8
    ensures BitAt(if i < 4 then Digit1(a, b) else Digit2(b, c), 2 + (i + 2) % 6) == BitAt(b, i)
  {
    if i == 0 {} else if i == 1 {} else if i == 2 {} else if i == 3 {} else if i == 4 {} else if i == 5 {} else
    if i == 6 {}
  }

  lemma ThirdByteBits(b: Byte, c: Byte, i: nat)
    requires i < 8
    ensures BitAt(if i < 2 then Digit2(b, c) else Digit3(c), 2 + (i + 4) % 6) == BitAt(c, i)
  {
    if i == 0 {} else if i == 1 {} else if i == 2 {} else if i == 3 {} else if i == 4 {} else if i == 5 {} else
    if i == 6 {}
  }

  lemma GroupBits(a: Byte, b: Byte, c: Byte, k: nat, j: nat)
    requires k < 4 && j < 6
    ensures BitAt(GroupDigit(a, b, c, k), 2 + j) == DataBit([a, b, c], 6 * k + j)
  {
    hide Digit0; hide Digit1; hide Digit2; hide Digit3; hide BitAt;
    var i := 6 * k + j;
    if i < 8 {
      FirstByteBits(a, b, i);
    } else if i < 16 {
      SecondByteBits(a, b, c, i - 8);
    } else {
      ThirdByteBits(b, c, i - 16);
    }
  }

  lemma GroupDigitOf(a: Byte, b: Byte, c: Byte, k: nat)
    requires k < 4
    ensures Value(Group(a, b, c)[k]) == GroupDigit(a, b, c, k)
  {
    hide Group; hide Value; hide Digit0; hide Digit1; hide Digit2; hide Digit3;
    GroupDigits(a, b, c);
  }

  /** The data with zero bytes up to a whole group. */
  function FirstGroup(data: seq<Byte>): (g: seq<Byte>)
    requires |data| > 0
    ensures |g| == 3
  {
    [data[0], if |data| > 1 then data[1] else 0, if |data| > 2 then data[2] else 0]
  }

  lemma FirstGroupBit(data: seq<Byte>, i: nat)
    requires |data| > 0 && i < 24
    ensures DataBit(data, i) == DataBit(FirstGroup(data), i)
  {
    hide BitAt;
    NoBitInZero(i % 8);
  }

  lemma EncodedDigit(data: seq<Byte>, k: nat)
    requires k < 4 && 6 * k < 8 * |data|
    ensures k < |Encode(data)|
    ensures Encode(data)[k] == Group(FirstGroup(data)[0], FirstGroup(data)[1], FirstGroup(data)[2])[k]
  {
    hide Group;
  }

  lemma DataBitShifts(data: seq<Byte>, i: nat)
    requires |data| >= 3 && i >= 24
    ensures DataBit(data, i) == DataBit(data[3..], i - 24)
  {
    hide BitAt;
    assert (i - 24) % 8 == i % 8 && (i - 24) / 8 == i / 8 - 3;
  }

  /** Digit `k` of the text holds bits 6k to 6k + 5 of the data, with zeros behind its end. */
  lemma {:induction false} EncodesBits(data: seq<Byte>, k: nat, j: nat)
    requires 6 * k < 8 * |data| && j < 6
    ensures k < |Encode(data)|
    ensures BitAt(Value(Encode(data)[k]), 2 + j) == DataBit(data, 6 * k + j)
  {
    if k < 4 {
      hide *;
      var g := FirstGroup(data);
      EncodedDigit(data, k);
      GroupDigitOf(g[0], g[1], g[2], k);
      GroupBits(g[0], g[1], g[2], k, j);
      assert g == [g[0], g[1], g[2]];
      FirstGroupBit(data, 6 * k + j);
    } else {
      hide Group; hide Value; hide BitAt; hide DataBit;
      EncodesBits(data[3..], k - 4, j);
      DataBitShifts(data, 6 * k + j);
    }
  }

  lemma NoBitInZero(i: nat)
    requires i < 8
    ensures !BitAt(0, i)
  {
  }

  // ---------- The loops of the coder ----------

  /** strlen: the length of the C string in a buffer. */
  method StrLen(text: array<Byte>, ghost len: nat) returns (n: nat)
    requires len < text.Length && text[len] == NUL
    requires forall k :: 0 <= k < len ==> text[k] != NUL
    ensures n == len
  {
    hide NUL;
    n := 0;
    while text[n] != NUL
      invariant n <= len
      decreases len - n
    {
      n := n + 1;
    }
  }

  /** `done` is the text for the first `i` bytes. */
  ghost predicate EncodedUpTo(data: seq<Byte>, i: nat, done: seq<Byte>) {
    i <= |data| && done + Encode(data[i..]) == Encode(data)
  }

  lemma EncodeStarts(data: seq<Byte>)
    ensures EncodedUpTo(data, 0, [])
  {
    assert data[0..] == data;
  }

  lemma EncodeStep(data: seq<Byte>, i: nat, done: seq<Byte>)
    requires EncodedUpTo(data, i, done) && i < |data|
    ensures |done| + 4 <= |Encode(data)|
    ensures EncodedUpTo(data, if i + 3 > |data| then |data| else i + 3, done + Quad(data[i..]))
  {
    hide Quad;
    var rest := if i + 3 > |data| then [] else data[i + 3..];
    if i + 3 <= |data| {
      assert data[i..][3..] == rest;
    }
    assert Encode(data[i..]) == Quad(data[i..]) + Encode(rest);
    assert done + (Quad(data[i..]) + Encode(rest)) == done + Quad(data[i..]) + Encode(rest);
  }

  lemma EncodeEnds(data: seq<Byte>, done: seq<Byte>)
    requires EncodedUpTo(data, |data|, done)
    ensures done == Encode(data)
  {
  }

  /** A buffer after `piece` was written at `start`. */
  function Put(buffer: seq<Byte>, start: nat, piece: seq<Byte>): (after: seq<Byte>)
    requires start + |piece| <= |buffer|
    ensures |after| == |buffer|
  {
    buffer[..start] + piece + buffer[start + |piece|..]
  }

  lemma PutNext(buffer: seq<Byte>, piece: seq<Byte>, next: seq<Byte>)
    requires |piece| + |next| <= |buffer|
    ensures Put(Put(buffer, 0, piece), |piece|, next) == Put(buffer, 0, piece + next)
  {
  }

  lemma QuadOfOne(data: seq<Byte>)
    requires |data| == 1
    ensures Quad(data) == [Letter(Digit0(data[0])), Letter(Digit1(data[0], 0)), PAD, PAD]
  {
    hide Letter; hide Digit0; hide Digit1; hide Digit2; hide Digit3; hide PAD;
  }

  lemma QuadOfTwo(data: seq<Byte>)
    requires |data| == 2
    ensures Quad(data) == [Letter(Digit0(data[0])), Letter(Digit1(data[0], data[1])), Letter(Digit2(data[1], 0)), PAD]
  {
    hide Letter; hide Digit0; hide Digit1; hide Digit2; hide Digit3; hide PAD;
  }

  lemma QuadOfThree(data: seq<Byte>)
    requires |data| > 2
    ensures Quad(data) == [Letter(Digit0(data[0])), Letter(Digit1(data[0], data[1])),
                           Letter(Digit2(data[1], data[2])), Letter(Digit3(data[2]))]
  {
    hide Letter; hide Digit0; hide Digit1; hide Digit2; hide Digit3; hide PAD;
  }

  lemma FourWritten(before: seq<Byte>, after: seq<Byte>, start: nat, q: seq<Byte>)
    requires |q| == 4 && start + 4 <= |before| && |after| == |before|
    requires after[start] == q[0] && after[start + 1] == q[1] && after[start + 2] == q[2] && after[start + 3] == q[3]
    requires forall k :: 0 <= k < |after| && !(start <= k < start + 4) ==> after[k] == before[k]
    ensures after == Put(before, start, q)
  {
  }

  /** One turn of the encoding loop. */
  method EncodeQuad(binData: array<Byte>, base64: array<Byte>, binLen: nat, i: nat, start: nat,
                    ghost rest: seq<Byte>)
    returns (j: nat, last: bool)
    requires i < binLen <= binData.Length && start + 4 < base64.Length && base64 != binData
    requires rest == binData[i..binLen]
    modifies base64
    ensures j == start + 4 && last == (i + 3 > binLen)
    ensures base64[..] == Put(old(base64[..]), start, Quad(rest))
  {
    hide *;
    ghost var before := base64[..];
    j, last := start, true;
    var first := Letter(Digit0(binData[i]));
    base64[j] := first;
    j := j + 1;
    if i + 1 >= binLen {
      var second := Letter(Digit1(binData[i], 0));
      base64[j], base64[j + 1], base64[j + 2] := second, PAD, PAD;
      j := j + 3;
      QuadOfOne(rest);
      FourWritten(before, base64[..], start, [first, second, PAD, PAD]);
      return;
    }
    var second := Letter(Digit1(binData[i], binData[i + 1]));
    base64[j] := second;
    j := j + 1;
    if i + 2 >= binLen {
      var third := Letter(Digit2(binData[i + 1], 0));
      base64[j], base64[j + 1] := third, PAD;
      j := j + 2;
      QuadOfTwo(rest);
      FourWritten(before, base64[..], start, [first, second, third, PAD]);
      return;
    }
    var third := Letter(Digit2(binData[i + 1], binData[i + 2]));
    var fourth := Letter(Digit3(binData[i + 2]));
    base64[j], base64[j + 1] := third, fourth;
    j := j + 2;
    last := false;
    QuadOfThree(rest);
    FourWritten(before, base64[..], start, [first, second, third, fourth]);
  }

  /** The encoding loop. */
  method EncodeQuads(binData: array<Byte>, base64: array<Byte>, binLen: nat) returns (j: nat)
    requires binLen <= binData.Length && TextLength(binLen) < base64.Length && base64 != binData
    modifies base64
    ensures j == TextLength(binLen) && base64[..] == Put(old(base64[..]), 0, Encode(binData[..binLen]))
  {
    ghost var data, buffer := binData[..binLen], base64[..];
    ghost var done: seq<Byte>, seen: nat := [], 0;
    var i := 0;
    j := 0;
    assert |Encode(data)| == TextLength(binLen) && base64[..] == Put(buffer, 0, done);
    hide *;
    EncodeStarts(data);
    while i < binLen
      invariant i <= binLen && j == |done| <= |Encode(data)|
      invariant EncodedUpTo(data, seen, done) && seen == i
      invariant base64[..] == Put(buffer, 0, done)
      decreases binLen - i
    {
      EncodeStep(data, i, done);
      PutNext(buffer, done, Quad(data[i..]));
      var last;
      ghost var rest := data[i..];
      j, last := EncodeQuad(binData, base64, binLen, i, j, rest);
      done := done + Quad(rest);
      seen := if last then |data| else i + 3;
      if last {
        break;
      }
      i := i + 3;
    }
    EncodeEnds(data, done);
  }

  lemma PutAt(buffer: seq<Byte>, piece: seq<Byte>, k: nat)
    requires |piece| <= |buffer| && k < |piece|
    ensures Put(buffer, 0, piece)[k] == piece[k]
  {
  }

  /** The text and its terminator go to the start of the buffer; nothing behind them changes. */
  method EncodeInto(binData: array<Byte>, base64: array<Byte>, binLen: nat) returns (len: nat)
    requires binLen <= binData.Length && TextLength(binLen) < base64.Length && base64 != binData
    modifies base64
    ensures len == TextLength(binLen)
    ensures base64[..] == Put(old(base64[..]), 0, Encode(binData[..binLen]) + [0x00])
  {
    TerminatorIs();
    hide TextLength; hide Encode; hide NUL;
    ghost var text, buffer := Encode(binData[..binLen]), base64[..];
    var j := EncodeQuads(binData, base64, binLen);
    base64[j] := NUL;
    PutNext(buffer, text, [NUL]);
    EncodedIsText(binData[..binLen]);
    assert base64[..] == Put(buffer, 0, text + [NUL]);
    forall k | 0 <= k < j ensures base64[k] != NUL {
      PutAt(buffer, text + [NUL], k);
      assert base64[k] == base64[..][k] == text[k];
    }
    len := StrLen(base64, j);
  }

  /** One of the four searches of a decoding turn. */
  method FindValue(c: Byte) returns (temp: Byte)
    ensures temp == Value(c)
  {
    hide Letter; hide Value;
    temp := 0xff;
    var k: Byte := 0;
    while k < 64
      invariant k <= 64
      invariant temp == if Value(c) < k then Value(c) else 0xff
      decreases 64 - k
    {
      LetterIs(k, c);
      if Letter(k) == c {
        temp := k;
      }
      k := k + 1;
    }
    ValueIsDigit(c);
  }

  lemma ValueIsDigit(c: Byte)
    ensures Value(c) < 64 || Value(c) == 0xff
  {
  }

  /** `done` is what the first `i` characters decode to, when none of them ends the text. */
  ghost predicate DecodedUpTo(text: seq<Byte>, i: nat, done: seq<Byte>) {
    i <= |text| && Readable(text) && Readable(text[i..]) && done + Decode(text[i..]) == Decode(text)
  }

  lemma DecodeStarts(text: seq<Byte>)
    requires Readable(text)
    ensures DecodedUpTo(text, 0, [])
  {
    assert text[0..] == text;
  }

  lemma DecodeStep(text: seq<Byte>, i: nat, done: seq<Byte>)
    requires DecodedUpTo(text, i, done) && i < |text|
    ensures i + 3 <= |text|
    ensures |done + Unquad((text + [NUL])[i..i + 4])| <= |Decode(text)|
    ensures if IsLast((text + [NUL])[i..i + 4]) then done + Unquad((text + [NUL])[i..i + 4]) == Decode(text)
            else i + 4 <= |text| && DecodedUpTo(text, i + 4, done + Unquad((text + [NUL])[i..i + 4]))
  {
    hide Unquad; hide IsLast; hide NUL;
    NoPadTerminates(text[i..]);
    var quad := (text + [NUL])[i..i + 4];
    assert FirstQuad(text[i..]) == quad;
    if !IsLast(quad) {
      assert text[i..][4..] == text[i + 4..];
    }
    var rest := if IsLast(quad) then [] else Decode(text[i + 4..]);
    assert Decode(text[i..]) == Unquad(quad) + rest;
    assert done + (Unquad(quad) + rest) == done + Unquad(quad) + rest;
  }

  lemma NoPadTerminates(text: seq<Byte>)
    requires Readable(text) && text != []
    ensures |text| >= 3 && (!IsLast(FirstQuad(text)) ==> |text| >= 4)
  {
  }

  /** The buffer holds the text as a C string. */
  ghost predicate HoldsText(buffer: array<Byte>, text: seq<Byte>)
    reads buffer
  {
    |text| < buffer.Length && buffer[..|text|] == text && buffer[|text|] == 0x00 && 0x00 !in text
  }

  lemma FourRead(base64: array<Byte>, text: seq<Byte>, i: nat)
    requires HoldsText(base64, text) && i + 3 <= |text|
    ensures i + 4 <= base64.Length && base64[i..i + 4] == (text + [NUL])[i..i + 4]
  {
    TerminatorIs();
    hide NUL;
    assert base64[..|text| + 1] == text + [NUL];
    assert base64[..|text| + 1][i..i + 4] == base64[i..i + 4];
  }

  lemma DecodeEnds(text: seq<Byte>, done: seq<Byte>)
    requires DecodedUpTo(text, |text|, done)
    ensures done == Decode(text)
  {
  }

  lemma UnquadBytes(quad: seq<Byte>)
    requires |quad| == 4
    ensures Unquad(quad)[0] == Byte0(Value(quad[0]), Value(quad[1]))
    ensures |Unquad(quad)| > 1 <==> quad[2] != PAD
    ensures |Unquad(quad)| > 1 ==> Unquad(quad)[1] == Byte1(Value(quad[1]), Value(quad[2]))
    ensures |Unquad(quad)| > 2 <==> quad[2] != PAD && quad[3] != PAD
    ensures |Unquad(quad)| > 2 ==> Unquad(quad)[2] == Byte2(Value(quad[2]), Value(quad[3]))
  {
    hide Value; hide Byte0; hide Byte1; hide Byte2; hide PAD;
  }

  lemma BytesWritten(before: seq<Byte>, after: seq<Byte>, start: nat, d: seq<Byte>)
    requires start + |d| <= |before| == |after|
    requires forall k :: 0 <= k < |d| ==> after[start + k] == d[k]
    requires forall k :: 0 <= k < |after| && !(start <= k < start + |d|) ==> after[k] == before[k]
    ensures after == Put(before, start, d)
  {
  }

  /** One turn of the decoding loop. */
  method DecodeQuad(base64: array<Byte>, binData: array<Byte>, i: nat, start: nat, ghost quad: seq<Byte>)
    returns (j: nat, last: bool)
    requires i + 4 <= base64.Length && base64 != binData && quad == base64[i..i + 4]
    requires start + |Unquad(quad)| <= binData.Length
    modifies binData
    ensures j == start + |Unquad(quad)| && last == IsLast(quad)
    ensures binData[..] == Put(old(binData[..]), start, Unquad(quad))
  {
    assert IsLast(quad) <==> quad[2] == PAD || quad[3] == PAD;
    hide *;
    UnquadBytes(quad);
    ghost var before, d := binData[..], Unquad(quad);
    var c2, c3 := base64[i + 2], base64[i + 3];
    var t0 := FindValue(base64[i]);
    var t1 := FindValue(base64[i + 1]);
    var t2 := FindValue(c2);
    var t3 := FindValue(c3);
    j, last := start, true;
    binData[j] := Byte0(t0, t1);
    j := j + 1;
    if c2 == PAD {
      BytesWritten(before, binData[..], start, d);
      return;
    }
    binData[j] := Byte1(t1, t2);
    j := j + 1;
    if c3 == PAD {
      BytesWritten(before, binData[..], start, d);
      return;
    }
    binData[j] := Byte2(t2, t3);
    j := j + 1;
    last := false;
    BytesWritten(before, binData[..], start, d);
  }

  /** The decoder, on any C string in a buffer that it does not read beyond its terminator. */
  method DecodeInto(base64: array<Byte>, binData: array<Byte>, ghost text: seq<Byte>) returns (j: nat)
    requires HoldsText(base64, text) && Readable(text)
    requires |Decode(text)| <= binData.Length && base64 != binData
    modifies binData
    ensures j == |Decode(text)|
    ensures binData[..] == Put(old(binData[..]), 0, Decode(text))
  {
    ghost var buffer := binData[..];
    ghost var done: seq<Byte> := [];
    var i := 0;
    j := 0;
    assert binData[..] == Put(buffer, 0, done);
    assert forall k :: 0 <= k < |text| ==> base64[k] == text[k] != NUL;
    assert base64[|text|] == NUL;
    hide *;
    DecodeStarts(text);
    while base64[i] != NUL
      invariant i <= |text| && j == |done| <= |Decode(text)|
      invariant DecodedUpTo(text, i, done)
      invariant binData[..] == Put(buffer, 0, done)
      decreases |text| - i
    {
      DecodeStep(text, i, done);
      FourRead(base64, text, i);
      ghost var quad := base64[i..i + 4];
      PutNext(buffer, done, Unquad(quad));
      var last;
      j, last := DecodeQuad(base64, binData, i, j, quad);
      done := done + Unquad(quad);
      if last {
        return;
      }
      i := i + 4;
    }
    DecodeEnds(text, done);
  }
}
