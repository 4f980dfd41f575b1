/** AES-128 as FIPS 197 specifies it: the cipher, the inverse cipher and the key
    expansion, as functions on values. */
module Aes {
  import opened Gf256
  import opened AesTables
  import opened ColumnMixing

  /** The 4x4 state, column by column. */
  datatype State = State(c0: Column, c1: Column, c2: Column, c3: Column)

  // ---------- The four transformations and their inverses ----------

  function SubElem(a: Elem): Elem { Elem(SBox(a.bits)) }

  function InvSubElem(a: Elem): Elem { Elem(InvSBox(a.bits)) }

  function MapBytes(f: Elem -> Elem, s: State): State {
    State(MapColumn(f, s.c0), MapColumn(f, s.c1), MapColumn(f, s.c2), MapColumn(f, s.c3))
  }

  function MapColumn(f: Elem -> Elem, c: Column): Column {
    Column(f(c.r0), f(c.r1), f(c.r2), f(c.r3))
  }

  function MapColumns(f: Column -> Column, s: State): State {
    State(f(s.c0), f(s.c1), f(s.c2), f(s.c3))
  }

  function SubBytes(s: State): State {
    MapBytes(SubElem, s)
  }

  function InvSubBytes(s: State): State {
    MapBytes(InvSubElem, s)
  }

  /** Row r moves r columns to the left. */
  function ShiftRows(s: State): State {
    State(Column(s.c0.r0, s.c1.r1, s.c2.r2, s.c3.r3), Column(s.c1.r0, s.c2.r1, s.c3.r2, s.c0.r3),
          Column(s.c2.r0, s.c3.r1, s.c0.r2, s.c1.r3), Column(s.c3.r0, s.c0.r1, s.c1.r2, s.c2.r3))
  }

  /** Row r moves r columns to the right. */
  function InvShiftRows(s: State): State {
    State(Column(s.c0.r0, s.c3.r1, s.c2.r2, s.c1.r3), Column(s.c1.r0, s.c0.r1, s.c3.r2, s.c2.r3),
          Column(s.c2.r0, s.c1.r1, s.c0.r2, s.c3.r3), Column(s.c3.r0, s.c2.r1, s.c1.r2, s.c0.r3))
  }

  function MixColumns(s: State): State {
    MapColumns(MixColumn, s)
  }

  function InvMixColumns(s: State): State {
    MapColumns(InvMixColumn, s)
  }

  function AddColumn(a: Column, b: Column): Column {
    Column(Add(a.r0, b.r0), Add(a.r1, b.r1), Add(a.r2, b.r2), Add(a.r3, b.r3))
  }

  function AddRoundKey(s: State, k: State): State {
    State(AddColumn(s.c0, k.c0), AddColumn(s.c1, k.c1), AddColumn(s.c2, k.c2), AddColumn(s.c3, k.c3))
  }

  lemma MapBytesInverse(f: Elem -> Elem, g: Elem -> Elem, s: State)
    requires forall e :: g(f(e)) == e
    ensures MapBytes(g, MapBytes(f, s)) == s
  {
  }

  lemma MapColumnsInverse(f: Column -> Column, g: Column -> Column, s: State)
    requires forall c :: g(f(c)) == c
    ensures MapColumns(g, MapColumns(f, s)) == s
  {
  }

  lemma SubBytesInverse(s: State)
    ensures InvSubBytes(SubBytes(s)) == s && SubBytes(InvSubBytes(s)) == s
  {
    hide SBox; hide InvSBox; hide MapBytes;
    forall e ensures InvSubElem(SubElem(e)) == e { InvUndoesSBox(e.bits); }
    forall e ensures SubElem(InvSubElem(e)) == e { SBoxUndoesInv(e.bits); }
    MapBytesInverse(SubElem, InvSubElem, s);
    MapBytesInverse(InvSubElem, SubElem, s);
  }

  lemma ShiftRowsInverse(s: State)
    ensures InvShiftRows(ShiftRows(s)) == s && ShiftRows(InvShiftRows(s)) == s
  {
  }

  lemma MixColumnsInverse(s: State)
    ensures InvMixColumns(MixColumns(s)) == s && MixColumns(InvMixColumns(s)) == s
  {
    hide MixColumn; hide InvMixColumn; hide MapColumns;
    forall c ensures InvMixColumn(MixColumn(c)) == c && MixColumn(InvMixColumn(c)) == c { MixColumnInverse(c); }
    MapColumnsInverse(MixColumn, InvMixColumn, s);
    MapColumnsInverse(InvMixColumn, MixColumn, s);
  }

  lemma AddColumnCancels(a: Column, b: Column)
    ensures AddColumn(AddColumn(a, b), b) == a
  {
    hide Add;
    AddCancels(a.r0, b.r0); AddCancels(a.r1, b.r1); AddCancels(a.r2, b.r2); AddCancels(a.r3, b.r3);
  }

  lemma AddRoundKeyCancels(s: State, k: State)
    ensures AddRoundKey(AddRoundKey(s, k), k) == s
  {
    hide AddColumn;
    AddColumnCancels(s.c0, k.c0); AddColumnCancels(s.c1, k.c1);
    AddColumnCancels(s.c2, k.c2); AddColumnCancels(s.c3, k.c3);
  }

  // ---------- The cipher and its inverse ----------

  /** Any eleven round keys, expanded from a cipher key or not. */
  type RoundKeys = k: seq<State> | |k| == 11
    witness seq(11, _ => State(Column(ZERO, ZERO, ZERO, ZERO), Column(ZERO, ZERO, ZERO, ZERO),
                               Column(ZERO, ZERO, ZERO, ZERO), Column(ZERO, ZERO, ZERO, ZERO)))

  function Substitute(s: State): State {
    ShiftRows(SubBytes(s))
  }

  function InvSubstitute(s: State): State {
    InvSubBytes(InvShiftRows(s))
  }

  /** The state after round `n`; the last round does not mix the columns. */
  function Forward(s: State, keys: RoundKeys, n: nat): State
    requires n <= 10
  {
    if n == 0 then AddRoundKey(s, keys[0])
    else
      var t := Substitute(Forward(s, keys, n - 1));
      AddRoundKey(if n != 10 then MixColumns(t) else t, keys[n])
  }

  function Cipher(s: State, keys: RoundKeys): State {
    Forward(s, keys, 10)
  }

  /** The state of the inverse cipher when the rounds from 9 down to `n` are done. */
  function Backward(s: State, keys: RoundKeys, n: nat): State
    requires n <= 10
    decreases 10 - n
  {
    if n == 10 then AddRoundKey(s, keys[10])
    else
      var t := AddRoundKey(InvSubstitute(Backward(s, keys, n + 1)), keys[n]);
      if n != 0 then InvMixColumns(t) else t
  }

  function InvCipher(s: State, keys: RoundKeys): State {
    Backward(s, keys, 0)
  }

  lemma SubstituteInverse(s: State)
    ensures InvSubstitute(Substitute(s)) == s && Substitute(InvSubstitute(s)) == s
  {
    hide SubBytes; hide InvSubBytes; hide ShiftRows; hide InvShiftRows;
    ShiftRowsInverse(s);
    ShiftRowsInverse(SubBytes(s));
    SubBytesInverse(s);
    SubBytesInverse(InvShiftRows(s));
  }

  /** Before its round key is removed, the inverse cipher is where the cipher was in that round. */
  lemma {:induction false} BackwardFollowsForward(s: State, keys: RoundKeys, n: nat)
    requires 1 <= n <= 10
    ensures Backward(Cipher(s, keys), keys, n) == Substitute(Forward(s, keys, n - 1))
    decreases 10 - n
  {
    hide AddRoundKey; hide MixColumns; hide InvMixColumns; hide Substitute; hide InvSubstitute;
    var t := Substitute(Forward(s, keys, n - 1));
    if n == 10 {
      AddRoundKeyCancels(t, keys[10]);
    } else {
      BackwardFollowsForward(s, keys, n + 1);
      SubstituteInverse(Forward(s, keys, n));
      AddRoundKeyCancels(MixColumns(t), keys[n]);
      MixColumnsInverse(t);
    }
  }

  lemma {:induction false} ForwardFollowsBackward(s: State, keys: RoundKeys, n: nat)
    requires n <= 9
    ensures Forward(InvCipher(s, keys), keys, n) == InvSubstitute(Backward(s, keys, n + 1))
  {
    hide AddRoundKey; hide MixColumns; hide InvMixColumns; hide Substitute; hide InvSubstitute;
    var t := InvSubstitute(Backward(s, keys, n + 1));
    if n == 0 {
      AddRoundKeyCancels(t, keys[0]);
    } else {
      ForwardFollowsBackward(s, keys, n - 1);
      SubstituteInverse(Backward(s, keys, n));
      MixColumnsInverse(AddRoundKey(t, keys[n]));
      AddRoundKeyCancels(t, keys[n]);
    }
  }

  /** For any eleven round keys the two ciphers undo each other, in both orders. */
  lemma CipherInverse(s: State, keys: RoundKeys)
    ensures InvCipher(Cipher(s, keys), keys) == s
    ensures Cipher(InvCipher(s, keys), keys) == s
  {
    hide AddRoundKey; hide MixColumns; hide InvMixColumns; hide Substitute; hide InvSubstitute;
    BackwardFollowsForward(s, keys, 1);
    SubstituteInverse(Forward(s, keys, 0));
    AddRoundKeyCancels(s, keys[0]);
    ForwardFollowsBackward(s, keys, 9);
    SubstituteInverse(Backward(s, keys, 10));
    AddRoundKeyCancels(s, keys[10]);
  }

  // ---------- Key expansion, FIPS 197, section 5.2 ----------

  /** x^(n-1), the round constant of round n. */
  function Rcon(n: nat): Elem
    requires n >= 1
  {
    Power(Elem(0x01), n - 1)
  }

  function RotWord(c: Column): Column {
    Column(c.r1, c.r2, c.r3, c.r0)
  }

  /** The i-th word of the schedule. */
  function Word(key: seq<Byte>, i: nat): Column
    requires |key| == 16
  {
    if i < 4 then Column(Elem(key[4 * i]), Elem(key[4 * i + 1]), Elem(key[4 * i + 2]), Elem(key[4 * i + 3]))
    else AddColumn(Word(key, i - 4), ScheduleTerm(Word(key, i - 1), i))
  }

  function SubColumn(c: Column): Column {
    Column(SubElem(c.r0), SubElem(c.r1), SubElem(c.r2), SubElem(c.r3))
  }

  function ScheduleTerm(last: Column, i: nat): Column
    requires i >= 4
  {
    if i % 4 == 0 then AddColumn(SubColumn(RotWord(last)), Column(Rcon(i / 4), ZERO, ZERO, ZERO))
    else last
  }

  function RoundKey(key: seq<Byte>, i: nat): State
    requires |key| == 16
  {
    State(Word(key, 4 * i), Word(key, 4 * i + 1), Word(key, 4 * i + 2), Word(key, 4 * i + 3))
  }

  function Schedule(key: seq<Byte>): RoundKeys
    requires |key| == 16
  {
    seq(11, i requires 0 <= i => RoundKey(key, i))
  }

  // ---------- Blocks of bytes ----------

  function ColumnOfBytes(b: seq<Byte>, c: nat): Column
    requires |b| == 16 && c < 4
  {
    Column(Elem(b[4 * c]), Elem(b[4 * c + 1]), Elem(b[4 * c + 2]), Elem(b[4 * c + 3]))
  }

  /** Bytes enter the state column by column. */
  function StateOfBytes(b: seq<Byte>): State
    requires |b| == 16
  {
    State(ColumnOfBytes(b, 0), ColumnOfBytes(b, 1), ColumnOfBytes(b, 2), ColumnOfBytes(b, 3))
  }

  function BytesOfColumn(c: Column): (b: seq<Byte>)
    ensures |b| == 4
  {
    [c.r0.bits, c.r1.bits, c.r2.bits, c.r3.bits]
  }

  function BytesOfState(s: State): (b: seq<Byte>)
    ensures |b| == 16
  {
    BytesOfColumn(s.c0) + BytesOfColumn(s.c1) + BytesOfColumn(s.c2) + BytesOfColumn(s.c3)
  }

  lemma BytesInverse(b: seq<Byte>, s: State)
    requires |b| == 16
    ensures BytesOfState(StateOfBytes(b)) == b
    ensures StateOfBytes(BytesOfState(s)) == s
  {
  }

  function EncryptBlock(keys: RoundKeys, b: seq<Byte>): (r: seq<Byte>)
    requires |b| == 16
    ensures |r| == 16
  {
    BytesOfState(Cipher(StateOfBytes(b), keys))
  }

  function DecryptBlock(keys: RoundKeys, b: seq<Byte>): (r: seq<Byte>)
    requires |b| == 16
    ensures |r| == 16
  {
    BytesOfState(InvCipher(StateOfBytes(b), keys))
  }

  lemma BlockInverse(keys: RoundKeys, b: seq<Byte>)
    requires |b| == 16
    ensures DecryptBlock(keys, EncryptBlock(keys, b)) == b
    ensures EncryptBlock(keys, DecryptBlock(keys, b)) == b
  {
    hide BytesOfState; hide StateOfBytes; hide Cipher; hide InvCipher;
    var s := StateOfBytes(b);
    CipherInverse(s, keys);
    BytesInverse(b, Cipher(s, keys));
    BytesInverse(b, InvCipher(s, keys));
  }
}
