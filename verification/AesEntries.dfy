/** The cipher, its inverse and the key expansion entry by entry, as FIPS 197 prints them: row r and
    column c of a state after a round, from the entries before it. */
module AesEntries {
  import opened Gf256
  import opened AesTables
  import opened ColumnMixing
  import opened Aes

  function Row(c: Column, r: nat): Elem {
    if r == 0 then c.r0 else if r == 1 then c.r1 else if r == 2 then c.r2 else c.r3
  }

  function ColumnAt(s: State, c: nat): Column {
    if c == 0 then s.c0 else if c == 1 then s.c1 else if c == 2 then s.c2 else s.c3
  }

  /** The entry in row r and column c. */
  function Entry(s: State, r: nat, c: nat): Elem {
    Row(ColumnAt(s, c), r)
  }

  // ---------- The transformations ----------

  lemma MapBytesEntry(f: Elem -> Elem, s: State, r: nat, c: nat)
    requires r < 4 && c < 4
    ensures Entry(MapBytes(f, s), r, c) == f(Entry(s, r, c))
  {
  }

  lemma SubBytesEntry(s: State, r: nat, c: nat)
    requires r < 4 && c < 4
    ensures Entry(SubBytes(s), r, c) == Elem(SBox(Entry(s, r, c).bits))
    ensures Entry(InvSubBytes(s), r, c) == Elem(InvSBox(Entry(s, r, c).bits))
  {
    hide SBox; hide InvSBox; hide MapBytes; hide Entry;
    MapBytesEntry(SubElem, s, r, c);
    MapBytesEntry(InvSubElem, s, r, c);
  }

  lemma ShiftRowsEntry(s: State, r: nat, c: nat)
    requires r < 4 && c < 4
    ensures Entry(ShiftRows(s), r, c) == Entry(s, r, (c + r) % 4)
  {
  }

  lemma InvShiftRowsEntry(s: State, r: nat, c: nat)
    requires r < 4 && c < 4
    ensures Entry(InvShiftRows(s), r, c) == Entry(s, r, (c - r + 4) % 4)
  {
  }

  lemma AddRoundKeyEntry(s: State, k: State, r: nat, c: nat)
    requires r < 4 && c < 4
    ensures Entry(AddRoundKey(s, k), r, c) == Add(Entry(s, r, c), Entry(k, r, c))
  {
    hide Add;
  }


  /** Every entry of a mixed state, in any column: the matrix with the first row 2, 3, 1, 1. */
  lemma MixColumnsEntry(s: State, r: nat, c: nat)
    requires r < 4 && c < 4
    ensures Entry(MixColumns(s), r, c) ==
      Add(Add(Add(Times(0x02, Entry(s, r, c)), Times(0x03, Entry(s, (r + 1) % 4, c))),
              Times(0x01, Entry(s, (r + 2) % 4, c))), Times(0x01, Entry(s, (r + 3) % 4, c)))
  {
    hide Times; hide Add;
  }

  /** The inverse matrix has the first row 14, 11, 13, 9. */
  lemma InvMixColumnsEntry(s: State, r: nat, c: nat)
    requires r < 4 && c < 4
    ensures Entry(InvMixColumns(s), r, c) ==
      Add(Add(Add(Times(0x0e, Entry(s, r, c)), Times(0x0b, Entry(s, (r + 1) % 4, c))),
              Times(0x0d, Entry(s, (r + 2) % 4, c))), Times(0x09, Entry(s, (r + 3) % 4, c)))
  {
    hide Times; hide Add;
  }

  // ---------- The rounds ----------

  /** The substituted entry that the row shift of the cipher brings to row r, column c. */
  function Shifted(s: State, r: nat, c: nat): Elem {
    Elem(SBox(Entry(s, r, (c + r) % 4).bits))
  }

  /** The substituted entry that the row shift of the inverse cipher brings to row r, column c. */
  function InvShifted(s: State, r: nat, c: nat): Elem
    requires r < 4
  {
    Elem(InvSBox(Entry(s, r, (c - r + 4) % 4).bits))
  }

  lemma SubstituteEntry(s: State, r: nat, c: nat)
    requires r < 4 && c < 4
    ensures Entry(Substitute(s), r, c) == Shifted(s, r, c)
  {
    hide SubBytes; hide ShiftRows; hide Entry; hide SBox;
    ShiftRowsEntry(SubBytes(s), r, c);
    SubBytesEntry(s, r, (c + r) % 4);
  }

  lemma InvSubstituteEntry(s: State, r: nat, c: nat)
    requires r < 4 && c < 4
    ensures Entry(InvSubstitute(s), r, c) == InvShifted(s, r, c)
  {
    hide InvSubBytes; hide InvShiftRows; hide Entry; hide InvSBox;
    SubBytesEntry(InvShiftRows(s), r, c);
    InvShiftRowsEntry(s, r, c);
  }

  /** Every entry of the state after round n: nine rounds that mix, and a tenth that does not. */
  lemma RoundEntry(s: State, keys: RoundKeys, n: nat, r: nat, c: nat)
    requires n <= 10 && r < 4 && c < 4
    ensures n == 0 ==> Entry(Forward(s, keys, 0), r, c) == Add(Entry(s, r, c), Entry(keys[0], r, c))
    ensures 1 <= n <= 9 ==>
      var t := Forward(s, keys, n - 1);
      Entry(Forward(s, keys, n), r, c) ==
        Add(Add(Add(Add(Times(0x02, Shifted(t, r, c)), Times(0x03, Shifted(t, (r + 1) % 4, c))),
                    Times(0x01, Shifted(t, (r + 2) % 4, c))), Times(0x01, Shifted(t, (r + 3) % 4, c))),
            Entry(keys[n], r, c))
    ensures n == 10 ==>
      Entry(Forward(s, keys, 10), r, c) == Add(Shifted(Forward(s, keys, 9), r, c), Entry(keys[10], r, c))
  {
    if n == 0 {
      hide AddRoundKey; hide Add; hide Entry;
      AddRoundKeyEntry(s, keys[0], r, c);
    } else {
      var t := Forward(s, keys, n - 1);
      var u := Substitute(t);
      var mixed := if n != 10 then MixColumns(u) else u;
      assert Forward(s, keys, n) == AddRoundKey(mixed, keys[n]) by {
        hide AddRoundKey; hide MixColumns; hide Substitute;
      }
      hide *;
      AddRoundKeyEntry(mixed, keys[n], r, c);
      SubstituteEntry(t, r, c);
      if n != 10 {
        MixedEntry(t, r, c);
      }
    }
  }

  lemma MixedEntry(t: State, r: nat, c: nat)
    requires r < 4 && c < 4
    ensures Entry(MixColumns(Substitute(t)), r, c) ==
      Add(Add(Add(Times(0x02, Shifted(t, r, c)), Times(0x03, Shifted(t, (r + 1) % 4, c))),
              Times(0x01, Shifted(t, (r + 2) % 4, c))), Times(0x01, Shifted(t, (r + 3) % 4, c)))
  {
    hide *;
    MixColumnsEntry(Substitute(t), r, c);
    SubstituteEntry(t, r, c);
    SubstituteEntry(t, (r + 1) % 4, c);
    SubstituteEntry(t, (r + 2) % 4, c);
    SubstituteEntry(t, (r + 3) % 4, c);
  }

  /** What the inverse cipher has in row r, column c before it unmixes the columns of round n. */
  function Unkeyed(t: State, key: State, r: nat, c: nat): Elem
    requires r < 4
  {
    Add(InvShifted(t, r, c), Entry(key, r, c))
  }

  /** Every entry of the inverse cipher when it is done with round n. */
  lemma InvRoundEntry(s: State, keys: RoundKeys, n: nat, r: nat, c: nat)
    requires n <= 10 && r < 4 && c < 4
    ensures n == 10 ==> Entry(Backward(s, keys, 10), r, c) == Add(Entry(s, r, c), Entry(keys[10], r, c))
    ensures 1 <= n <= 9 ==>
      var t, key := Backward(s, keys, n + 1), keys[n];
      Entry(Backward(s, keys, n), r, c) ==
        Add(Add(Add(Times(0x0e, Unkeyed(t, key, r, c)), Times(0x0b, Unkeyed(t, key, (r + 1) % 4, c))),
                Times(0x0d, Unkeyed(t, key, (r + 2) % 4, c))), Times(0x09, Unkeyed(t, key, (r + 3) % 4, c)))
    ensures n == 0 ==>
      Entry(Backward(s, keys, 0), r, c) == Add(InvShifted(Backward(s, keys, 1), r, c), Entry(keys[0], r, c))
  {
    if n == 10 {
      hide AddRoundKey; hide Add; hide Entry;
      AddRoundKeyEntry(s, keys[10], r, c);
    } else {
      var t := Backward(s, keys, n + 1);
      var u := AddRoundKey(InvSubstitute(t), keys[n]);
      assert Backward(s, keys, n) == if n != 0 then InvMixColumns(u) else u by {
        hide AddRoundKey; hide InvMixColumns; hide InvSubstitute;
      }
      hide *;
      if n != 0 {
        UnmixedEntry(t, keys[n], r, c);
      } else {
        AddRoundKeyEntry(InvSubstitute(t), keys[0], r, c);
        InvSubstituteEntry(t, r, c);
      }
    }
  }

  lemma UnkeyedEntry(t: State, key: State, r: nat, c: nat)
    requires r < 4 && c < 4
    ensures Entry(AddRoundKey(InvSubstitute(t), key), r, c) == Unkeyed(t, key, r, c)
  {
    hide AddRoundKey; hide InvSubstitute; hide InvShifted; hide Entry; hide Add;
    AddRoundKeyEntry(InvSubstitute(t), key, r, c);
    InvSubstituteEntry(t, r, c);
  }

  lemma UnmixedEntry(t: State, key: State, r: nat, c: nat)
    requires r < 4 && c < 4
    ensures Entry(InvMixColumns(AddRoundKey(InvSubstitute(t), key)), r, c) ==
      Add(Add(Add(Times(0x0e, Unkeyed(t, key, r, c)), Times(0x0b, Unkeyed(t, key, (r + 1) % 4, c))),
              Times(0x0d, Unkeyed(t, key, (r + 2) % 4, c))), Times(0x09, Unkeyed(t, key, (r + 3) % 4, c)))
  {
    hide *;
    InvMixColumnsEntry(AddRoundKey(InvSubstitute(t), key), r, c);
    UnkeyedEntry(t, key, r, c);
    UnkeyedEntry(t, key, (r + 1) % 4, c);
    UnkeyedEntry(t, key, (r + 2) % 4, c);
    UnkeyedEntry(t, key, (r + 3) % 4, c);
  }

  // ---------- Blocks ----------

  lemma StateOfBytesEntry(b: seq<Byte>, r: nat, c: nat)
    requires |b| == 16 && r < 4 && c < 4
    ensures Entry(StateOfBytes(b), r, c) == Elem(b[4 * c + r])
  {
  }

  lemma BytesOfStateAt(s: State, r: nat, c: nat)
    requires r < 4 && c < 4
    ensures BytesOfState(s)[4 * c + r] == Entry(s, r, c).bits
  {
  }

  /** A block enters and leaves the ten rounds column by column, in both directions. */
  lemma BlockEntry(keys: RoundKeys, b: seq<Byte>, r: nat, c: nat)
    requires |b| == 16 && r < 4 && c < 4
    ensures Entry(StateOfBytes(b), r, c) == Elem(b[4 * c + r])
    ensures EncryptBlock(keys, b)[4 * c + r] == Entry(Forward(StateOfBytes(b), keys, 10), r, c).bits
    ensures DecryptBlock(keys, b)[4 * c + r] == Entry(Backward(StateOfBytes(b), keys, 0), r, c).bits
  {
    hide Forward; hide Backward; hide Entry; hide StateOfBytes; hide BytesOfState;
    StateOfBytesEntry(b, r, c);
    BytesOfStateAt(Cipher(StateOfBytes(b), keys), r, c);
    BytesOfStateAt(InvCipher(StateOfBytes(b), keys), r, c);
  }

  // ---------- The schedule ----------

  lemma WordRow(key: seq<Byte>, n: nat, r: nat)
    requires |key| == 16 && r < 4
    ensures n < 4 ==> Row(Word(key, n), r) == Elem(key[4 * n + r])
    ensures n >= 4 && n % 4 != 0 ==>
      Row(Word(key, n), r) == Add(Row(Word(key, n - 4), r), Row(Word(key, n - 1), r))
    ensures n >= 4 && n % 4 == 0 ==>
      Row(Word(key, n), r) == Add(Row(Word(key, n - 4), r), Row(ScheduleTerm(Word(key, n - 1), n), r))
  {
    hide Add; hide SubColumn; hide RotWord; hide Rcon;
  }

  /** x^(i-1) is added in row 0 of the first column of round key i. */
  function FirstTerm(next: Elem, i: nat, r: nat): Elem
    requires i >= 1
  {
    if r == 0 then Add(next, Power(Elem(0x01), i - 1)) else next
  }

  lemma TermRow(last: Column, i: nat, r: nat)
    requires i >= 1 && r < 4
    ensures Row(ScheduleTerm(last, 4 * i), r) == FirstTerm(Elem(SBox(Row(last, (r + 1) % 4).bits)), i, r)
  {
    hide Add; hide SBox; hide Power;
    assert 4 * i / 4 == i && 4 * i % 4 == 0;
    AddZero(Elem(SBox(last.r2.bits)));
    AddZero(Elem(SBox(last.r3.bits)));
    AddZero(Elem(SBox(last.r0.bits)));
  }

  lemma ScheduleWord(key: seq<Byte>, i: nat, r: nat, c: nat)
    requires |key| == 16 && i < 11 && r < 4 && c < 4
    ensures Entry(Schedule(key)[i], r, c) == Row(Word(key, 4 * i + c), r)
  {
    hide Word; hide Row;
  }

  /** The recurrence of FIPS 197, section 5.2, for every entry of every round key. */
  lemma ScheduleEntry(key: seq<Byte>, i: nat, r: nat, c: nat)
    requires |key| == 16 && i < 11 && r < 4 && c < 4
    ensures i == 0 ==> Entry(Schedule(key)[0], r, c) == Elem(key[4 * c + r])
    ensures i >= 1 && c >= 1 ==>
      Entry(Schedule(key)[i], r, c) == Add(Entry(Schedule(key)[i - 1], r, c), Entry(Schedule(key)[i], r, c - 1))
    ensures i >= 1 && c == 0 ==>
      Entry(Schedule(key)[i], r, 0) ==
        Add(Entry(Schedule(key)[i - 1], r, 0),
            FirstTerm(Elem(SBox(Entry(Schedule(key)[i - 1], (r + 1) % 4, 3).bits)), i, r))
  {
    hide *;
    ScheduleWord(key, i, r, c);
    WordRow(key, 4 * i + c, r);
    if i >= 1 {
      ScheduleWord(key, i - 1, r, c);
      if c >= 1 {
        ScheduleWord(key, i, r, c - 1);
      } else {
        ScheduleWord(key, i - 1, (r + 1) % 4, 3);
        TermRow(Word(key, 4 * i - 1), i, r);
      }
    }
  }
}
