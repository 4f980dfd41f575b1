/** The two loops of the driver that run AES-128 in cipher feedback mode, over byte buffers
    and a key schedule that survives from one call to the next. */
module CfbInPlace {
  import opened Gf256
  import opened Aes
  import opened AesInPlace
  import opened Cfb

  /** AES-128 under the first 16 bytes of a key buffer. */
  function AesUnder(key: seq<Byte>): Block -> Block
    requires |key| >= 16
  {
    var keys := Schedule(key[..16]);
    (b: Block) => EncryptBlock(keys, b)
  }

  /** Both directions of the mode run the cipher forwards, with the expanded key. */
  lemma AesUnderIs(key: seq<Byte>, b: Block)
    requires |key| >= 16
    ensures AesUnder(key)(b) == EncryptBlock(Schedule(key[..16]), b)
  {
    hide EncryptBlock; hide Schedule;
  }

  /** memset(a, 0, n) */
  method Clear(a: array<Byte>, n: nat)
    requires n <= a.Length
    modifies a
    ensures forall i :: 0 <= i < n ==> a[i] == 0
    ensures a[n..] == old(a[n..])
  {
    for i := 0 to n
      invariant forall k :: 0 <= k < i ==> a[k] == 0
      invariant a[n..] == old(a[n..])
    {
      a[i] := 0;
    }
  }

  /** memcpy(to, from + start, n) */
  method Copy(to: array<Byte>, from: array<Byte>, start: nat, n: nat)
    requires to != from && n <= to.Length && start + n <= from.Length
    modifies to
    ensures to[..n] == from[start..start + n]
    ensures to[n..] == old(to[n..])
  {
    for i := 0 to n
      invariant to[..i] == from[start..start + i]
      invariant to[n..] == old(to[n..])
    {
      to[i] := from[start + i];
    }
  }

  /** The key stream is added to the `n` bytes of a segment and to its zero padding. */
  method XorSegment(text: array<Byte>, output: array<Byte>, n: nat, sum: array<Byte>)
    requires text.Length == 16 && output.Length == 16 && sum.Length == 16 && n <= 16
    requires sum != text && sum != output
    modifies sum
    ensures sum[..n] == XorPrefix(text[..n], output[..])
  {
    hide Xor;
    for i := 0 to 16
      invariant forall k :: 0 <= k < i && k < n ==> sum[k] == Xor(text[k], output[k])
    {
      if n - 1 < i {
        sum[i] := Xor(0, output[i]);
      } else {
        sum[i] := Xor(text[i], output[i]);
      }
    }
  }

  method Append(outData: array<Byte>, outLen: nat, text: array<Byte>, n: nat) returns (len: nat)
    requires n <= text.Length && outLen + n <= outData.Length && outData != text
    modifies outData
    ensures len == outLen + n
    ensures outData[..outLen] == old(outData[..outLen]) && outData[outLen..len] == text[..n]
    ensures outData[len..] == old(outData[len..])
  {
    len := outLen;
    for i := 0 to n
      invariant len == outLen + i
      invariant outData[..outLen] == old(outData[..outLen]) && outData[outLen..len] == text[..i]
      invariant outData[outLen + n..] == old(outData[outLen + n..])
    {
      outData[len] := text[i];
      len := len + 1;
    }
  }

  method Rounds(inLen: nat) returns (rounds: nat)
    ensures 16 * rounds - 16 < inLen <= 16 * rounds || inLen == rounds == 0
  {
    if inLen % 16 == 0 {
      rounds := inLen / 16;
    } else {
      rounds := inLen / 16 + 1;
    }
  }

  /** The schedule is the one of block cipher `e`. */
  ghost predicate Expanded(w: array3<Elem>, e: Block -> Block)
    requires Is11x4x4(w)
    reads w
  {
    forall b: Block :: e(b) == EncryptBlock(KeysOf(w), b)
  }

  method ExpandKey(key: array<Byte>, w: array3<Elem>)
    requires Is11x4x4(w) && key.Length >= 16
    modifies w
    ensures Expanded(w, AesUnder(key[..]))
  {
    hide EncryptBlock; hide Schedule; hide KeysOf;
    KeyExpansion(key, w);
    assert key[..][..16] == key[..16];
  }

  method Feed(input: array<Byte>, output: array<Byte>, w: array3<Elem>, ghost e: Block -> Block)
    requires input.Length >= 16 && output.Length == 16 && Is11x4x4(w) && Expanded(w, e)
    modifies output
    ensures output[..] == e(old(input[..16]))
  {
    hide EncryptBlock; hide KeysOf;
    CipherInPlace(input, output, w);
    assert output[..16] == output[..];
  }

  /** The part of a round that both loops share: the next segment of `inData` is read into
      `text` and combined with the key stream into `sum` and `outData`. */
  method Segment(iv: array<Byte>, inData: array<Byte>, inLen: nat, outData: array<Byte>, w: array3<Elem>,
                 r: nat, firstRound: bool, input: array<Byte>, output: array<Byte>,
                 text: array<Byte>, sum: array<Byte>, done: nat, ghost e: Block -> Block)
    returns (outLen: nat)
    requires Is11x4x4(w) && Expanded(w, e) && iv.Length >= 16
    requires inLen <= inData.Length && inLen <= outData.Length && done == 16 * r < inLen
    requires input.Length == 16 && output.Length == 16 && text.Length == 16 && sum.Length == 16
    requires outData !in {inData, iv} && {input, output, text, sum} !! {inData, outData, iv}
    requires output !in {input, text, sum} && sum !in {input, text} && input != text
    modifies outData, output, text, sum
    ensures outLen == if done + 16 > inLen then inLen else done + 16
    ensures outData[done..outLen] == XorPrefix(inData[done..outLen], e(if firstRound then iv[..16] else input[..16]))
    ensures outData[..done] == old(outData[..done]) && outData[inLen..] == old(outData[inLen..])
    ensures text[..outLen - done] == inData[done..outLen] && sum[..outLen - done] == outData[done..outLen]
  {
    hide *;
    ghost var fed := if firstRound then iv[..16] else input[..16];
    var start := r * 16;
    var end := r * 16 + 16;
    if end > inLen {
      end := inLen;
    }
    Clear(text, 16);
    Copy(text, inData, start, end - start);
    if firstRound {
      Feed(iv, output, w, e);
    } else {
      Feed(input, output, w, e);
    }
    assert output[..] == e(fed);
    XorSegment(text, output, end - start, sum);
    outLen := Append(outData, done, sum, end - start);
  }

  /** The encrypting loop. */
  method EncryptRounds(iv: array<Byte>, inData: array<Byte>, inLen: nat, outData: array<Byte>, w: array3<Elem>,
                       rounds: nat, ghost e: Block -> Block)
    returns (outLen: nat)
    requires Is11x4x4(w) && Expanded(w, e) && iv.Length >= 16
    requires inLen <= inData.Length && inLen <= outData.Length && outData !in {inData, iv}
    requires 16 * rounds - 16 < inLen <= 16 * rounds || inLen == rounds == 0
    modifies outData
    ensures outLen == inLen && Chained(e, iv[..16], inData[..][..inLen], outData[..][..inLen])
    ensures outData[inLen..] == old(outData[inLen..])
  {
    hide *;
    var firstRound := true;
    var input, output := new Byte[16](_ => 0), new Byte[16](_ => 0);
    var plainText, cipherText := new Byte[16](_ => 0), new Byte[16](_ => 0);
    outLen := 0;
    ChainedEmpty(e, iv[..16], inData[..], outData[..]);
    for r := 0 to rounds
      invariant firstRound == (r == 0)
      invariant outLen == if r == rounds then inLen else 16 * r
      invariant Chained(e, iv[..16], inData[..][..outLen], outData[..][..outLen])
      invariant 0 < r < rounds ==> input[..16] == outData[..][outLen - 16..outLen]
      invariant outData[inLen..] == old(outData[inLen..])
    {
      ghost var start, before := outLen, outData[..];
      ghost var fed := if firstRound then iv[..16] else input[..16];
      outLen := Segment(iv, inData, inLen, outData, w, r, firstRound, input, output, plainText, cipherText, outLen, e);
      firstRound := false;
      ghost var after := outData[..];
      SegmentAppended(e, iv[..16], inData[..], before, after, start, outLen - start, fed);
      Copy(input, cipherText, 0, 16);
      assert outLen - start == 16 ==> input[..16] == cipherText[..16] == after[start..outLen];
      assert outData[..] == after;
    }
  }

  method Encrypt(key: array<Byte>, iv: array<Byte>, inData: array<Byte>, inLen: nat,
                 outData: array<Byte>, w: array3<Elem>)
    returns (outLen: nat)
    requires Is11x4x4(w) && key.Length >= 16 && iv.Length >= 16
    requires inLen <= inData.Length && inLen <= outData.Length
    requires outData !in {inData, iv, key}
    modifies outData, w
    ensures outLen == inLen
    ensures outData[..inLen] == CfbEncrypt(AesUnder(key[..]), iv[..16], inData[..inLen])
    ensures outData[inLen..] == old(outData[inLen..])
  {
    hide *;
    ghost var e := AesUnder(key[..]);
    Clear(outData, inLen);
    ExpandKey(key, w);
    var rounds := Rounds(inLen);
    outLen := EncryptRounds(iv, inData, inLen, outData, w, rounds, e);
    ChainedIsEncryption(e, iv[..16], inData[..][..inLen], outData[..][..inLen]);
  }

  /** The decrypting loop. */
  method DecryptRounds(iv: array<Byte>, inData: array<Byte>, inLen: nat, outData: array<Byte>, w: array3<Elem>,
                       rounds: nat, ghost e: Block -> Block)
    returns (outLen: nat)
    requires Is11x4x4(w) && Expanded(w, e) && iv.Length >= 16
    requires inLen <= inData.Length && inLen <= outData.Length && outData !in {inData, iv}
    requires 16 * rounds - 16 < inLen <= 16 * rounds || inLen == rounds == 0
    modifies outData
    ensures outLen == inLen && Chained(e, iv[..16], outData[..][..inLen], inData[..][..inLen])
    ensures outData[inLen..] == old(outData[inLen..])
  {
    hide *;
    var firstRound := true;
    var input, output := new Byte[16](_ => 0), new Byte[16](_ => 0);
    var plainText, cipherText := new Byte[16](_ => 0), new Byte[16](_ => 0);
    outLen := 0;
    ChainedEmpty(e, iv[..16], inData[..], outData[..]);
    for r := 0 to rounds
      invariant firstRound == (r == 0)
      invariant outLen == if r == rounds then inLen else 16 * r
      invariant Chained(e, iv[..16], outData[..][..outLen], inData[..][..outLen])
      invariant 0 < r < rounds ==> input[..16] == inData[..][outLen - 16..outLen]
      invariant outData[inLen..] == old(outData[inLen..])
    {
      ghost var start, before := outLen, outData[..];
      ghost var fed := if firstRound then iv[..16] else input[..16];
      outLen := Segment(iv, inData, inLen, outData, w, r, firstRound, input, output, cipherText, plainText, outLen, e);
      firstRound := false;
      ghost var after := outData[..];
      SegmentDecrypted(e, iv[..16], before, after, inData[..], start, outLen - start, fed);
      Copy(input, cipherText, 0, 16);
      assert outLen - start == 16 ==> input[..16] == cipherText[..16] == inData[..][start..outLen];
      assert outData[..] == after;
    }
  }

  method Decrypt(key: array<Byte>, iv: array<Byte>, inData: array<Byte>, inLen: nat,
                 outData: array<Byte>, w: array3<Elem>)
    returns (outLen: nat)
    requires Is11x4x4(w) && key.Length >= 16 && iv.Length >= 16
    requires inLen <= inData.Length && inLen <= outData.Length
    requires outData !in {inData, iv, key}
    modifies outData, w
    ensures outLen == inLen
    ensures outData[..inLen] == CfbDecrypt(AesUnder(key[..]), iv[..16], inData[..inLen])
    ensures outData[inLen..] == old(outData[inLen..])
  {
    hide *;
    ghost var e := AesUnder(key[..]);
    Clear(outData, inLen);
    ExpandKey(key, w);
    var rounds := Rounds(inLen);
    outLen := DecryptRounds(iv, inData, inLen, outData, w, rounds, e);
    ChainedIsEncryption(e, iv[..16], outData[..][..inLen], inData[..][..inLen]);
  }
}
