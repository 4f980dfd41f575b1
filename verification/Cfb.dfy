/** Cipher feedback mode over a 16-byte block cipher with 128-bit segments, of which the last one may be
    short (NIST SP 800-38A, section 6.3). */
module Cfb {
  import opened Gf256

  // ---------- The mode ----------

  function Xor(a: Byte, b: Byte): Byte {
    a ^ b
  }

  lemma XorCancels(a: Byte, b: Byte)
    ensures Xor(Xor(a, b), b) == a
  {
  }

  function XorPrefix(data: seq<Byte>, mask: seq<Byte>): (r: seq<Byte>)
    requires |data| <= |mask|
    ensures |r| == |data|
  {
    seq(|data|, i requires 0 <= i < |data| => Xor(data[i], mask[i]))
  }

  type Block = b: seq<Byte> | |b| == 16 witness seq(16, _ => 0)

  /** Encryption with block cipher `e`. */
  function CfbEncrypt(e: Block -> Block, iv: Block, data: seq<Byte>): (r: seq<Byte>)
    ensures |r| == |data|
    decreases |data|
  {
    if |data| <= 16 then XorPrefix(data, e(iv))
    else
      var block := XorPrefix(data[..16], e(iv));
      block + CfbEncrypt(e, block, data[16..])
  }

  function CfbDecrypt(e: Block -> Block, iv: Block, data: seq<Byte>): (r: seq<Byte>)
    ensures |r| == |data|
    decreases |data|
  {
    if |data| <= 16 then XorPrefix(data, e(iv))
    else XorPrefix(data[..16], e(iv)) + CfbDecrypt(e, data[..16], data[16..])
  }

  // ---------- Both directions are one relation between plaintext and ciphertext ----------

  /** The block that is fed back for byte `i`: the initialization vector at first, then the
      ciphertext block before the one that `i` lies in. */
  function Feedback(iv: Block, cipher: seq<Byte>, i: nat): Block
    requires i <= |cipher|
  {
    if i < 16 then iv else cipher[i / 16 * 16 - 16..i / 16 * 16]
  }

  function KeyStream(e: Block -> Block, iv: Block, cipher: seq<Byte>, i: nat): Byte
    requires i <= |cipher|
  {
    e(Feedback(iv, cipher, i))[i % 16]
  }

  ghost predicate Chained(e: Block -> Block, iv: Block, plain: seq<Byte>, cipher: seq<Byte>)
  {
    |plain| == |cipher| &&
    forall i: nat :: i < |plain| ==> cipher[i] == Xor(plain[i], KeyStream(e, iv, cipher, i))
  }

  lemma FeedbackShifts(iv: Block, block: Block, rest: seq<Byte>, i: nat)
    requires i < |rest|
    ensures Feedback(iv, block + rest, i + 16) == Feedback(block, rest, i)
  {
    var j := i / 16 * 16;
    assert (i + 16) / 16 * 16 == j + 16;
    if j == 0 {
      assert (block + rest)[0..16] == block;
    } else {
      assert (block + rest)[j..j + 16] == rest[j - 16..j];
    }
  }

  lemma KeyStreamShifts(e: Block -> Block, iv: Block, block: Block, rest: seq<Byte>, i: nat)
    requires i < |rest|
    ensures KeyStream(e, iv, block + rest, i + 16) == KeyStream(e, block, rest, i)
  {
    hide Feedback;
    FeedbackShifts(iv, block, rest, i);
  }

  /** A first block and what follows it chain when each does, the second fed by the first. */
  lemma ChainedBlocks(e: Block -> Block, iv: Block, p: Block, c: Block, ps: seq<Byte>, cs: seq<Byte>)
    requires c == XorPrefix(p, e(iv)) && Chained(e, c, ps, cs)
    ensures Chained(e, iv, p + ps, c + cs)
  {
    hide Xor; hide KeyStream;
    forall i: nat | i < |p + ps| ensures (c + cs)[i] == Xor((p + ps)[i], KeyStream(e, iv, c + cs, i)) {
      if i < 16 {
        FirstBlockKeyStream(e, iv, c + cs, i);
      } else {
        KeyStreamShifts(e, iv, c, cs, i - 16);
      }
    }
  }

  lemma FirstBlockKeyStream(e: Block -> Block, iv: Block, cipher: seq<Byte>, i: nat)
    requires i < 16 && i <= |cipher|
    ensures KeyStream(e, iv, cipher, i) == e(iv)[i]
  {
  }

  lemma ShortDataChains(e: Block -> Block, iv: Block, p: seq<Byte>, c: seq<Byte>)
    requires |p| == |c| <= 16
    requires c == XorPrefix(p, e(iv))
    ensures Chained(e, iv, p, c)
  {
    hide Xor; hide KeyStream;
    forall i: nat | i < |p| ensures c[i] == Xor(p[i], KeyStream(e, iv, c, i)) {
      FirstBlockKeyStream(e, iv, c, i);
    }
  }

  lemma XorPrefixCancels(data: seq<Byte>, mask: seq<Byte>)
    requires |data| <= |mask|
    ensures XorPrefix(XorPrefix(data, mask), mask) == data
  {
    hide Xor;
    forall i: nat | i < |data| ensures Xor(Xor(data[i], mask[i]), mask[i]) == data[i] {
      XorCancels(data[i], mask[i]);
    }
  }

  lemma {:induction false} EncryptChains(e: Block -> Block, iv: Block, data: seq<Byte>)
    ensures Chained(e, iv, data, CfbEncrypt(e, iv, data))
    decreases |data|
  {
    hide XorPrefix; hide Chained;
    if |data| <= 16 {
      ShortDataChains(e, iv, data, CfbEncrypt(e, iv, data));
    } else {
      var block := XorPrefix(data[..16], e(iv));
      EncryptChains(e, block, data[16..]);
      ChainedBlocks(e, iv, data[..16], block, data[16..], CfbEncrypt(e, block, data[16..]));
      assert data[..16] + data[16..] == data;
    }
  }

  lemma {:induction false} DecryptChains(e: Block -> Block, iv: Block, data: seq<Byte>)
    ensures Chained(e, iv, CfbDecrypt(e, iv, data), data)
    decreases |data|
  {
    hide XorPrefix; hide Chained;
    var mask := e(iv);
    if |data| <= 16 {
      XorPrefixCancels(data, mask);
      ShortDataChains(e, iv, CfbDecrypt(e, iv, data), data);
    } else {
      DecryptChains(e, data[..16], data[16..]);
      XorPrefixCancels(data[..16], mask);
      ChainedBlocks(e, iv, XorPrefix(data[..16], mask), data[..16],
                    CfbDecrypt(e, data[..16], data[16..]), data[16..]);
      assert data[..16] + data[16..] == data;
    }
  }

  lemma KeyStreamOfPrefix(e: Block -> Block, iv: Block, cipher: seq<Byte>, n: nat, i: nat)
    requires i < n <= |cipher|
    ensures KeyStream(e, iv, cipher[..n], i) == KeyStream(e, iv, cipher, i)
  {
    assert cipher[..n][..i] == cipher[..i];
    FeedbackOfPrefix(iv, cipher[..n], cipher, i);
  }

  /** What is fed back for the segment that starts at `start`. */
  function FedBack(iv: Block, cipher: seq<Byte>, start: nat): Block
    requires start % 16 == 0 && start <= |cipher|
  {
    if start == 0 then iv else cipher[start - 16..start]
  }

  lemma SegmentKeyStream(e: Block -> Block, iv: Block, cipher: seq<Byte>, start: nat, i: nat)
    requires start % 16 == 0 && i < 16 && start + i <= |cipher|
    ensures KeyStream(e, iv, cipher, start + i) == e(FedBack(iv, cipher, start))[i]
  {
    assert (start + i) / 16 * 16 == start && (start + i) % 16 == i;
  }

  /** A chained prefix grows by one segment of `n` bytes. */
  lemma ChainedExtends(e: Block -> Block, iv: Block, plain: seq<Byte>, cipher: seq<Byte>, start: nat, n: nat)
    requires start % 16 == 0 && n <= 16 && start + n <= |plain| && start + n <= |cipher|
    requires Chained(e, iv, plain[..start], cipher[..start])
    requires cipher[start..start + n] == XorPrefix(plain[start..start + n], e(FedBack(iv, cipher, start)))
    ensures Chained(e, iv, plain[..start + n], cipher[..start + n])
  {
    hide Xor; hide KeyStream; hide FedBack;
    var p, c := plain[..start + n], cipher[..start + n];
    forall i: nat | i < start + n ensures c[i] == Xor(p[i], KeyStream(e, iv, c, i)) {
      KeyStreamOfPrefix(e, iv, cipher, start + n, i);
      if i < start {
        KeyStreamOfPrefix(e, iv, cipher, start, i);
        assert cipher[..start][i] == Xor(plain[..start][i], KeyStream(e, iv, cipher[..start], i));
      } else {
        SegmentKeyStream(e, iv, cipher, start, i - start);
        assert cipher[start..start + n][i - start] == c[i] && plain[start..start + n][i - start] == p[i];
      }
    }
  }

  /** The same when the segment was written behind a prefix that stayed as it was. */
  lemma SegmentAppended(e: Block -> Block, iv: Block, plain: seq<Byte>, before: seq<Byte>, after: seq<Byte>,
                        start: nat, n: nat, fed: Block)
    requires start % 16 == 0 && n <= 16 && start + n <= |plain| && start + n <= |after| == |before|
    requires Chained(e, iv, plain[..start], before[..start]) && after[..start] == before[..start]
    requires fed == if start == 0 then iv else before[start - 16..start]
    requires after[start..start + n] == XorPrefix(plain[start..start + n], e(fed))
    ensures Chained(e, iv, plain[..start + n], after[..start + n])
  {
    hide Chained;
    if start != 0 {
      assert before[start - 16..start] == before[..start][start - 16..] == after[start - 16..start];
    }
    ChainedExtends(e, iv, plain, after, start, n);
  }

  /** The same when the segment is decrypted. */
  lemma SegmentDecrypted(e: Block -> Block, iv: Block, before: seq<Byte>, after: seq<Byte>, cipher: seq<Byte>,
                         start: nat, n: nat, fed: Block)
    requires start % 16 == 0 && n <= 16 && start + n <= |cipher| && start + n <= |after| == |before|
    requires Chained(e, iv, before[..start], cipher[..start]) && after[..start] == before[..start]
    requires fed == if start == 0 then iv else cipher[start - 16..start]
    requires after[start..start + n] == XorPrefix(cipher[start..start + n], e(fed))
    ensures Chained(e, iv, after[..start + n], cipher[..start + n])
  {
    hide Chained; hide XorPrefix;
    XorPrefixCancels(cipher[start..start + n], e(fed));
    ChainedExtends(e, iv, after, cipher, start, n);
  }

  lemma ChainedEmpty(e: Block -> Block, iv: Block, plain: seq<Byte>, cipher: seq<Byte>)
    ensures Chained(e, iv, plain[..0], cipher[..0])
  {
  }

  /** The relation is a function of the plaintext, and causal: equal plaintext prefixes have
      equal ciphertext prefixes. */
  lemma {:induction false} ChainedCausal(e: Block -> Block, iv: Block, p: seq<Byte>, c: seq<Byte>, q: seq<Byte>,
                                         d: seq<Byte>, n: nat)
    requires Chained(e, iv, p, c) && Chained(e, iv, q, d)
    requires n <= |p| && n <= |q| && p[..n] == q[..n]
    ensures c[..n] == d[..n]
  {
    hide Xor;
    if n != 0 {
      assert p[..n][..n - 1] == p[..n - 1] && q[..n][..n - 1] == q[..n - 1];
      ChainedCausal(e, iv, p, c, q, d, n - 1);
      assert Feedback(iv, c, n - 1) == Feedback(iv, d, n - 1) by { FeedbackOfPrefix(iv, c, d, n - 1); }
      assert p[n - 1] == p[..n][n - 1] == q[n - 1];
      assert c[n - 1] == d[n - 1];
    }
  }

  lemma FeedbackOfPrefix(iv: Block, c: seq<Byte>, d: seq<Byte>, i: nat)
    requires i <= |c| && i <= |d| && c[..i] == d[..i]
    ensures Feedback(iv, c, i) == Feedback(iv, d, i)
  {
    if i >= 16 {
      var j := i / 16 * 16;
      assert c[j - 16..j] == c[..i][j - 16..j] && d[j - 16..j] == d[..i][j - 16..j];
    }
  }

  lemma ChainedDeterminesPlain(e: Block -> Block, iv: Block, p: seq<Byte>, q: seq<Byte>, c: seq<Byte>)
    requires Chained(e, iv, p, c) && Chained(e, iv, q, c)
    ensures p == q
  {
    hide Xor; hide KeyStream;
    forall i: nat | i < |p| ensures p[i] == q[i] {
      XorCancels(p[i], KeyStream(e, iv, c, i));
      XorCancels(q[i], KeyStream(e, iv, c, i));
    }
  }

  /** The chaining equation characterizes both directions. */
  lemma ChainedIsEncryption(e: Block -> Block, iv: Block, plain: seq<Byte>, cipher: seq<Byte>)
    ensures Chained(e, iv, plain, cipher) <==> cipher == CfbEncrypt(e, iv, plain)
    ensures Chained(e, iv, plain, cipher) <==> plain == CfbDecrypt(e, iv, cipher)
  {
    EncryptChains(e, iv, plain);
    DecryptChains(e, iv, cipher);
    if Chained(e, iv, plain, cipher) {
      var other := CfbEncrypt(e, iv, plain);
      ChainedCausal(e, iv, plain, cipher, plain, other, |plain|);
      assert cipher[..|plain|] == cipher && other[..|plain|] == other;
      ChainedDeterminesPlain(e, iv, plain, CfbDecrypt(e, iv, cipher), cipher);
    }
  }

  // ---------- Main results ----------

  /** Decryption undoes encryption and encryption undoes decryption, at every length. */
  lemma CfbRoundTrip(e: Block -> Block, iv: Block, data: seq<Byte>)
    ensures CfbDecrypt(e, iv, CfbEncrypt(e, iv, data)) == data
    ensures CfbEncrypt(e, iv, CfbDecrypt(e, iv, data)) == data
  {
    ChainedIsEncryption(e, iv, data, CfbEncrypt(e, iv, data));
    ChainedIsEncryption(e, iv, CfbDecrypt(e, iv, data), data);
  }

  /** Encrypting a prefix gives the prefix of the encryption. */
  lemma EncryptionIsCausal(e: Block -> Block, iv: Block, data: seq<Byte>, n: nat)
    requires n <= |data|
    ensures CfbEncrypt(e, iv, data[..n]) == CfbEncrypt(e, iv, data)[..n]
  {
    EncryptChains(e, iv, data);
    EncryptChains(e, iv, data[..n]);
    var c := CfbEncrypt(e, iv, data[..n]);
    assert data[..n][..n] == data[..n] && c[..n] == c;
    ChainedCausal(e, iv, data[..n], c, data, CfbEncrypt(e, iv, data), n);
  }

  lemma ChainedPrefix(e: Block -> Block, iv: Block, p: seq<Byte>, c: seq<Byte>, n: nat)
    requires Chained(e, iv, p, c) && n <= |p|
    ensures Chained(e, iv, p[..n], c[..n])
  {
    hide Xor; hide KeyStream;
    forall i: nat | i < n ensures KeyStream(e, iv, c[..n], i) == KeyStream(e, iv, c, i) {
      KeyStreamOfPrefix(e, iv, c, n, i);
    }
  }

  /** Decrypting a prefix gives the prefix of the decryption. */
  lemma DecryptionIsCausal(e: Block -> Block, iv: Block, data: seq<Byte>, n: nat)
    requires n <= |data|
    ensures CfbDecrypt(e, iv, data[..n]) == CfbDecrypt(e, iv, data)[..n]
  {
    var plain := CfbDecrypt(e, iv, data);
    hide CfbDecrypt; hide CfbEncrypt; hide Chained;
    ChainedIsEncryption(e, iv, plain, data);
    ChainedPrefix(e, iv, plain, data, n);
    ChainedIsEncryption(e, iv, plain[..n], data[..n]);
  }

  /** Where two ciphertexts agree on a block and on the one before it, so do their decryptions,
      whatever their initialization vectors are. */
  lemma DecryptionIsLocal(e: Block -> Block, iv: Block, jv: Block, c: seq<Byte>, d: seq<Byte>, r: nat, i: nat)
    requires r >= 1
    requires 16 * r <= i < 16 * r + 16 && i < |c| && i < |d|
    requires c[16 * r - 16..16 * r] == d[16 * r - 16..16 * r] && c[i] == d[i]
    ensures CfbDecrypt(e, iv, c)[i] == CfbDecrypt(e, jv, d)[i]
  {
    hide Xor;
    var p, q := CfbDecrypt(e, iv, c), CfbDecrypt(e, jv, d);
    DecryptChains(e, iv, c);
    DecryptChains(e, jv, d);
    assert i / 16 == r;
    assert KeyStream(e, iv, c, i) == KeyStream(e, jv, d, i);
    XorCancels(p[i], KeyStream(e, iv, c, i));
    XorCancels(q[i], KeyStream(e, jv, d, i));
  }

  // ---------- The equations of the mode, byte by byte ----------

  lemma SumShowsMask(a: Byte, m: Byte)
    ensures Xor(a, m) ^ a == m
  {
  }

  /** The sum of a plaintext byte and its ciphertext byte is the byte of the block cipher's output for
      the initialization vector, or from the second block on for the ciphertext block before. */
  lemma EncryptedByte(e: Block -> Block, iv: Block, data: seq<Byte>, i: nat)
    requires i < |data|
    ensures
      var cipher, j := CfbEncrypt(e, iv, data), i / 16 * 16;
      cipher[i] ^ data[i] == e(if i < 16 then iv else cipher[j - 16..j])[i % 16]
  {
    var cipher := CfbEncrypt(e, iv, data);
    EncryptChains(e, iv, data);
    SumShowsMask(data[i], KeyStream(e, iv, cipher, i));
    hide Xor; hide CfbEncrypt;
  }

  lemma DecryptedByte(e: Block -> Block, iv: Block, data: seq<Byte>, i: nat)
    requires i < |data|
    ensures
      var plain, j := CfbDecrypt(e, iv, data), i / 16 * 16;
      plain[i] ^ data[i] == e(if i < 16 then iv else data[j - 16..j])[i % 16]
  {
    var plain := CfbDecrypt(e, iv, data);
    DecryptChains(e, iv, data);
    MaskShown(plain[i], KeyStream(e, iv, data, i), data[i]);
    hide Xor; hide CfbDecrypt;
  }

  lemma MaskShown(a: Byte, m: Byte, c: Byte)
    requires c == Xor(a, m)
    ensures a ^ c == m
  {
  }

  lemma ZeroShowsMask(c: Byte)
    ensures c ^ 0 == c
  {
  }

  /** Up to one block of zeros is encrypted to the key stream itself. */
  lemma ZerosShowKeyStream(e: Block -> Block, iv: Block, n: nat)
    requires n <= 16
    ensures CfbEncrypt(e, iv, seq(n, _ => 0)) == e(iv)[..n]
  {
    var zeros: seq<Byte> := seq(n, _ => 0);
    var cipher := CfbEncrypt(e, iv, zeros);
    hide CfbEncrypt;
    forall i: nat | i < n ensures cipher[i] == e(iv)[i] {
      EncryptedByte(e, iv, zeros, i);
      ZeroShowsMask(cipher[i]);
    }
  }
}
