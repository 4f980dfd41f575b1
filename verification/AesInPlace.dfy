/** The cipher as the driver runs it: nested loops that update a 4x4 byte array and an
    11x4x4 key schedule in place, each proved against the functions of module Aes. The
    bytes of both arrays are kept as field elements. */
module AesInPlace {
  import opened Gf256
  import opened AesTables
  import opened ColumnMixing
  import opened Aes
  import opened AesEntries

  // ---------- What the arrays stand for ----------

  predicate Is4x4(state: array2<Elem>) {
    state.Length0 == 4 && state.Length1 == 4
  }

  predicate Is11x4x4(w: array3<Elem>) {
    w.Length0 == 11 && w.Length1 == 4 && w.Length2 == 4
  }

  ghost function ColumnOf(state: array2<Elem>, c: nat): Column
    requires Is4x4(state) && c < 4
    reads state
  {
    Column(state[0, c], state[1, c], state[2, c], state[3, c])
  }

  ghost function StateOf(state: array2<Elem>): State
    requires Is4x4(state)
    reads state
  {
    State(ColumnOf(state, 0), ColumnOf(state, 1), ColumnOf(state, 2), ColumnOf(state, 3))
  }

  ghost function ColumnIn(t: array<Elem>): Column
    requires t.Length == 4
    reads t
  {
    Column(t[0], t[1], t[2], t[3])
  }

  /** Word `n` of the schedule: column n % 4 of round key n / 4. */
  ghost function WordOf(w: array3<Elem>, n: nat): Column
    requires Is11x4x4(w) && n < 44
    reads w
  {
    Column(w[n / 4, 0, n % 4], w[n / 4, 1, n % 4], w[n / 4, 2, n % 4], w[n / 4, 3, n % 4])
  }

  ghost function KeyOf(w: array3<Elem>, i: nat): State
    requires Is11x4x4(w) && i < 11
    reads w
  {
    State(WordOf(w, 4 * i), WordOf(w, 4 * i + 1), WordOf(w, 4 * i + 2), WordOf(w, 4 * i + 3))
  }

  ghost function KeysOf(w: array3<Elem>): RoundKeys
    requires Is11x4x4(w)
    reads w
  {
    seq(11, i requires 0 <= i < 11 reads w => KeyOf(w, i))
  }

  // ---------- The arrays entry by entry ----------

  lemma EntryOf(state: array2<Elem>, r: nat, c: nat)
    requires Is4x4(state) && r < 4 && c < 4
    ensures Entry(StateOf(state), r, c) == state[r, c]
  {
  }

  lemma EntriesOf(state: array2<Elem>)
    requires Is4x4(state)
    ensures forall r: nat, c: nat :: r < 4 && c < 4 ==> state[r, c] == Entry(StateOf(state), r, c)
  {
    forall r: nat, c: nat | r < 4 && c < 4 ensures state[r, c] == Entry(StateOf(state), r, c) {
      EntryOf(state, r, c);
    }
  }

  lemma ArrayIs(state: array2<Elem>, s: State)
    requires Is4x4(state)
    requires forall r: nat, c: nat :: r < 4 && c < 4 ==> state[r, c] == Entry(s, r, c)
    ensures StateOf(state) == s
  {
    forall c: nat | c < 4 ensures ColumnOf(state, c) == ColumnAt(s, c) {
      assert state[0, c] == Entry(s, 0, c) && state[1, c] == Entry(s, 1, c);
      assert state[2, c] == Entry(s, 2, c) && state[3, c] == Entry(s, 3, c);
    }
  }

  lemma KeyEntry(w: array3<Elem>, i: nat, r: nat, c: nat)
    requires Is11x4x4(w) && i < 11 && r < 4 && c < 4
    ensures Entry(KeyOf(w, i), r, c) == w[i, r, c]
  {
    assert (4 * i + c) / 4 == i && (4 * i + c) % 4 == c;
  }

  // ---------- In-place transformations ----------

  /** One turn of the outer loop of subBytes and of invSubBytes, which differ in the table. */
  method MapRowInPlace(table: Elem -> Elem, state: array2<Elem>, r: nat)
    requires Is4x4(state) && r < 4
    modifies state
    ensures forall i: nat, j: nat :: i < 4 && j < 4 ==>
      state[i, j] == if i == r then table(old(state[i, j])) else old(state[i, j])
  {
    for c := 0 to 4
      invariant forall i: nat, j: nat :: i < 4 && j < 4 ==>
        state[i, j] == if i == r && j < c then table(old(state[i, j])) else old(state[i, j])
    {
      state[r, c] := table(state[r, c]);
    }
  }

  method MapBytesInPlace(table: Elem -> Elem, state: array2<Elem>)
    requires Is4x4(state)
    modifies state
    ensures StateOf(state) == MapBytes(table, old(StateOf(state)))
    ensures forall r: nat, c: nat :: r < 4 && c < 4 ==> state[r, c] == table(old(state[r, c]))
  {
    assert state.Length0 == 4 && state.Length1 == 4;
    hide *;
    ghost var s, t := StateOf(state), MapBytes(table, StateOf(state));
    EntriesOf(state);
    forall i: nat, j: nat | i < 4 && j < 4 ensures Entry(t, i, j) == table(Entry(s, i, j)) {
      MapBytesEntry(table, s, i, j);
    }
    for r := 0 to 4
      invariant forall i: nat, j: nat :: i < 4 && j < 4 ==> state[i, j] == Entry(if i < r then t else s, i, j)
    {
      MapRowInPlace(table, state, r);
    }
    ArrayIs(state, t);
  }

  method SubBytesInPlace(state: array2<Elem>)
    requires Is4x4(state)
    modifies state
    ensures StateOf(state) == SubBytes(old(StateOf(state)))
    ensures forall r: nat, c: nat :: r < 4 && c < 4 ==> state[r, c] == Elem(SBox(old(state[r, c]).bits))
  {
    hide SBox; hide MapBytes; hide StateOf;
    MapBytesInPlace(SubElem, state);
  }

  method InvSubBytesInPlace(state: array2<Elem>)
    requires Is4x4(state)
    modifies state
    ensures StateOf(state) == InvSubBytes(old(StateOf(state)))
    ensures forall r: nat, c: nat :: r < 4 && c < 4 ==> state[r, c] == Elem(InvSBox(old(state[r, c]).bits))
  {
    hide InvSBox; hide MapBytes; hide StateOf;
    MapBytesInPlace(InvSubElem, state);
  }

  method RotatedRow(state: array2<Elem>, r: nat) returns (t: array<Elem>)
    requires Is4x4(state) && r < 4
    ensures fresh(t) && t.Length == 4
    ensures forall j: nat :: j < 4 ==> t[j] == state[r, (j + r) % 4]
  {
    t := new Elem[4];
    for c := 0 to 4
      invariant forall j: nat :: j < c ==> t[j] == state[r, (j + r) % 4]
    {
      t[c] := state[r, (c + r) % 4];
    }
  }

  /** One turn of the loop of shiftRows. */
  method ShiftRowInPlace(state: array2<Elem>, r: nat)
    requires Is4x4(state) && r < 4
    modifies state
    ensures forall i: nat, j: nat :: i < 4 && j < 4 ==>
      state[i, j] == if i == r then old(state[r, (j + r) % 4]) else old(state[i, j])
  {
    var t := RotatedRow(state, r);
    ghost var moved := t[..];
    for c := 0 to 4
      invariant t[..] == moved
      invariant forall i: nat, j: nat :: i < 4 && j < 4 ==>
        state[i, j] == if i == r && j < c then moved[j] else old(state[i, j])
    {
      state[r, c] := t[c];
    }
  }

  method ShiftRowsInPlace(state: array2<Elem>)
    requires Is4x4(state)
    modifies state
    ensures StateOf(state) == ShiftRows(old(StateOf(state)))
    ensures forall r: nat, c: nat :: r < 4 && c < 4 ==> state[r, c] == old(state[r, (c + r) % 4])
  {
    assert state.Length0 == 4 && state.Length1 == 4;
    hide *;
    ghost var s, t := StateOf(state), ShiftRows(StateOf(state));
    EntriesOf(state);
    forall i: nat, j: nat | i < 4 && j < 4 ensures Entry(t, i, j) == Entry(s, i, (j + i) % 4) {
      ShiftRowsEntry(s, i, j);
    }
    for r := 1 to 4
      invariant forall i: nat, j: nat :: i < 4 && j < 4 ==> state[i, j] == Entry(if i < r then t else s, i, j)
    {
      ShiftRowInPlace(state, r);
    }
    ArrayIs(state, t);
  }

  method InvRotatedRow(state: array2<Elem>, r: nat) returns (t: array<Elem>)
    requires Is4x4(state) && r < 4
    ensures fresh(t) && t.Length == 4
    ensures forall j: nat :: j < 4 ==> t[j] == state[r, (j - r + 4) % 4]
  {
    t := new Elem[4];
    for c := 0 to 4
      invariant forall j: nat :: j < c ==> t[j] == state[r, (j - r + 4) % 4]
    {
      t[c] := state[r, (c - r + 4) % 4];
    }
  }

  /** One turn of the loop of invShiftRows. */
  method InvShiftRowInPlace(state: array2<Elem>, r: nat)
    requires Is4x4(state) && r < 4
    modifies state
    ensures forall i: nat, j: nat :: i < 4 && j < 4 ==>
      state[i, j] == if i == r then old(state[r, (j - r + 4) % 4]) else old(state[i, j])
  {
    var t := InvRotatedRow(state, r);
    ghost var moved := t[..];
    for c := 0 to 4
      invariant t[..] == moved
      invariant forall i: nat, j: nat :: i < 4 && j < 4 ==>
        state[i, j] == if i == r && j < c then moved[j] else old(state[i, j])
    {
      state[r, c] := t[c];
    }
  }

  method InvShiftRowsInPlace(state: array2<Elem>)
    requires Is4x4(state)
    modifies state
    ensures StateOf(state) == InvShiftRows(old(StateOf(state)))
    ensures forall r: nat, c: nat :: r < 4 && c < 4 ==> state[r, c] == old(state[r, (c - r + 4) % 4])
  {
    assert state.Length0 == 4 && state.Length1 == 4;
    hide *;
    ghost var s, t := StateOf(state), InvShiftRows(StateOf(state));
    EntriesOf(state);
    forall i: nat, j: nat | i < 4 && j < 4 ensures Entry(t, i, j) == Entry(s, i, (j - i + 4) % 4) {
      InvShiftRowsEntry(s, i, j);
    }
    for r := 1 to 4
      invariant forall i: nat, j: nat :: i < 4 && j < 4 ==> state[i, j] == Entry(if i < r then t else s, i, j)
    {
      InvShiftRowInPlace(state, r);
    }
    ArrayIs(state, t);
  }

  method CopyColumn(state: array2<Elem>, c: nat) returns (t: array<Elem>)
    requires Is4x4(state) && c < 4
    ensures fresh(t) && t.Length == 4 && ColumnIn(t) == ColumnOf(state, c)
  {
    t := new Elem[4];
    for r := 0 to 4
      invariant forall i: nat :: i < r ==> t[i] == state[i, c]
    {
      t[r] := state[r, c];
    }
  }

  /** One turn of the loop of mixColumns. */
  method MixColumnInPlace(state: array2<Elem>, c: nat)
    requires Is4x4(state) && c < 4
    modifies state
    ensures ColumnOf(state, c) == MixColumn(old(ColumnOf(state, c)))
    ensures forall j: nat :: j < 4 && j != c ==> ColumnOf(state, j) == old(ColumnOf(state, j))
  {
    hide MixColumn;
    ghost var product := MixColumn(ColumnOf(state, c));
    var t := CopyColumn(state, c);
    ghost var k := ColumnIn(t);
    for r := 0 to 4
      invariant ColumnIn(t) == k
      invariant forall i: nat, j: nat :: i < 4 && j < 4 ==>
        state[i, j] == if j == c && i < r then Row(product, i) else old(state[i, j])
    {
      var e := MixProduct(t, r);
      state[r, c] := e;
    }
  }

  method MixColumnsInPlace(state: array2<Elem>)
    requires Is4x4(state)
    modifies state
    ensures StateOf(state) == MixColumns(old(StateOf(state)))
    ensures forall r: nat, c: nat :: r < 4 && c < 4 ==>
      var s := old(StateOf(state));
      state[r, c] ==
        Add(Add(Add(Times(0x02, Entry(s, r, c)), Times(0x03, Entry(s, (r + 1) % 4, c))),
                Times(0x01, Entry(s, (r + 2) % 4, c))), Times(0x01, Entry(s, (r + 3) % 4, c)))
  {
    ghost var s := StateOf(state);
    MixColumnsLoop(state);
    hide *;
    forall r: nat, c: nat | r < 4 && c < 4
      ensures
        state[r, c] ==
          Add(Add(Add(Times(0x02, Entry(s, r, c)), Times(0x03, Entry(s, (r + 1) % 4, c))),
                  Times(0x01, Entry(s, (r + 2) % 4, c))), Times(0x01, Entry(s, (r + 3) % 4, c)))
    {
      EntryOf(state, r, c);
      MixColumnsEntry(s, r, c);
    }
  }

  method MixColumnsLoop(state: array2<Elem>)
    requires Is4x4(state)
    modifies state
    ensures StateOf(state) == MixColumns(old(StateOf(state)))
  {
    hide MixColumn; hide ColumnOf;
    for c := 0 to 4
      invariant forall j: nat :: j < 4 ==>
        ColumnOf(state, j) == if j < c then MixColumn(old(ColumnOf(state, j))) else old(ColumnOf(state, j))
    {
      MixColumnInPlace(state, c);
    }
  }

  /** One entry of the product, as mixColumns evaluates it. */
  method MixProduct(t: array<Elem>, r: nat) returns (e: Elem)
    requires t.Length == 4 && r < 4
    ensures e == Row(MixColumn(ColumnIn(t)), r)
  {
    hide Times; hide Add;
    var p0 := FFmul(0x02, t[r].bits);
    var p1 := FFmul(0x03, t[(r + 1) % 4].bits);
    var p2 := FFmul(0x01, t[(r + 2) % 4].bits);
    var p3 := FFmul(0x01, t[(r + 3) % 4].bits);
    e := Add(Add(Add(Elem(p0), Elem(p1)), Elem(p2)), Elem(p3));
  }

  /** One turn of the loop of invMixColumns. */
  method InvMixColumnInPlace(state: array2<Elem>, c: nat)
    requires Is4x4(state) && c < 4
    modifies state
    ensures ColumnOf(state, c) == InvMixColumn(old(ColumnOf(state, c)))
    ensures forall j: nat :: j < 4 && j != c ==> ColumnOf(state, j) == old(ColumnOf(state, j))
  {
    hide InvMixColumn;
    ghost var product := InvMixColumn(ColumnOf(state, c));
    var t := CopyColumn(state, c);
    ghost var k := ColumnIn(t);
    for r := 0 to 4
      invariant ColumnIn(t) == k
      invariant forall i: nat, j: nat :: i < 4 && j < 4 ==>
        state[i, j] == if j == c && i < r then Row(product, i) else old(state[i, j])
    {
      var e := InvMixProduct(t, r);
      state[r, c] := e;
    }
  }

  method InvMixColumnsInPlace(state: array2<Elem>)
    requires Is4x4(state)
    modifies state
    ensures StateOf(state) == InvMixColumns(old(StateOf(state)))
    ensures forall r: nat, c: nat :: r < 4 && c < 4 ==>
      var s := old(StateOf(state));
      state[r, c] ==
        Add(Add(Add(Times(0x0e, Entry(s, r, c)), Times(0x0b, Entry(s, (r + 1) % 4, c))),
                Times(0x0d, Entry(s, (r + 2) % 4, c))), Times(0x09, Entry(s, (r + 3) % 4, c)))
  {
    ghost var s := StateOf(state);
    InvMixColumnsLoop(state);
    hide *;
    forall r: nat, c: nat | r < 4 && c < 4
      ensures
        state[r, c] ==
          Add(Add(Add(Times(0x0e, Entry(s, r, c)), Times(0x0b, Entry(s, (r + 1) % 4, c))),
                  Times(0x0d, Entry(s, (r + 2) % 4, c))), Times(0x09, Entry(s, (r + 3) % 4, c)))
    {
      EntryOf(state, r, c);
      InvMixColumnsEntry(s, r, c);
    }
  }

  method InvMixColumnsLoop(state: array2<Elem>)
    requires Is4x4(state)
    modifies state
    ensures StateOf(state) == InvMixColumns(old(StateOf(state)))
  {
    hide InvMixColumn; hide ColumnOf;
    for c := 0 to 4
      invariant forall j: nat :: j < 4 ==>
        ColumnOf(state, j) == if j < c then InvMixColumn(old(ColumnOf(state, j))) else old(ColumnOf(state, j))
    {
      InvMixColumnInPlace(state, c);
    }
  }

  /** One entry of the product, as invMixColumns evaluates it. */
  method InvMixProduct(t: array<Elem>, r: nat) returns (e: Elem)
    requires t.Length == 4 && r < 4
    ensures e == Row(InvMixColumn(ColumnIn(t)), r)
  {
    hide Times; hide Add;
    var p0 := FFmul(0x0e, t[r].bits);
    var p1 := FFmul(0x0b, t[(r + 1) % 4].bits);
    var p2 := FFmul(0x0d, t[(r + 2) % 4].bits);
    var p3 := FFmul(0x09, t[(r + 3) % 4].bits);
    e := Add(Add(Add(Elem(p0), Elem(p1)), Elem(p2)), Elem(p3));
  }

  /** One turn of the loop of addRoundKey. */
  method AddKeyColumnInPlace(state: array2<Elem>, w: array3<Elem>, n: nat, c: nat)
    requires Is4x4(state) && Is11x4x4(w) && n < 11 && c < 4
    modifies state
    ensures forall i: nat, j: nat :: i < 4 && j < 4 ==>
      state[i, j] == if j == c then Add(old(state[i, j]), w[n, i, j]) else old(state[i, j])
  {
    hide Add;
    for r := 0 to 4
      invariant forall i: nat, j: nat :: i < 4 && j < 4 ==>
        state[i, j] == if j == c && i < r then Add(old(state[i, j]), w[n, i, j]) else old(state[i, j])
    {
      state[r, c] := Add(state[r, c], w[n, r, c]);
    }
  }

  method AddRoundKeyInPlace(state: array2<Elem>, w: array3<Elem>, n: nat)
    requires Is4x4(state) && Is11x4x4(w) && n < 11
    modifies state
    ensures StateOf(state) == AddRoundKey(old(StateOf(state)), KeyOf(w, n))
    ensures forall r: nat, c: nat :: r < 4 && c < 4 ==> state[r, c] == Add(old(state[r, c]), w[n, r, c])
  {
    assert state.Length0 == 4 && state.Length1 == 4 && w.Length0 == 11 && w.Length1 == 4 && w.Length2 == 4;
    hide *;
    ghost var s, k := StateOf(state), KeyOf(w, n);
    ghost var t := AddRoundKey(s, k);
    EntriesOf(state);
    forall i: nat, j: nat | i < 4 && j < 4 ensures Entry(t, i, j) == Add(Entry(s, i, j), w[n, i, j]) {
      AddRoundKeyEntry(s, k, i, j);
      KeyEntry(w, n, i, j);
    }
    for c := 0 to 4
      invariant forall i: nat, j: nat :: i < 4 && j < 4 ==> state[i, j] == Entry(if j < c then t else s, i, j)
    {
      AddKeyColumnInPlace(state, w, n, c);
    }
    ArrayIs(state, t);
  }

  // ---------- Key expansion ----------

  const ROUND_CONSTANTS: seq<Byte> := [0x01, 0x02, 0x04, 0x08, 0x10, 0x20, 0x40, 0x80, 0x1b, 0x36]

  /** The table of the code holds the powers of x that FIPS 197 asks for. */
  lemma RoundConstantsArePowers(n: nat)
    requires 1 <= n <= 10
    ensures Elem(ROUND_CONSTANTS[n - 1]) == Rcon(n)
  {
    if n > 1 {
      RoundConstantsArePowers(n - 1);
    }
  }

  lemma WordPosition(i: nat, j: nat)
    requires j < 4
    ensures (4 * i + j) / 4 == i && (4 * i + j) % 4 == j
  {
  }

  /** The column before column j of round key i. */
  method PreviousWord(w: array3<Elem>, i: nat, j: nat) returns (t: array<Elem>)
    requires Is11x4x4(w) && 1 <= i < 11 && j < 4
    ensures fresh(t) && t.Length == 4 && ColumnIn(t) == WordOf(w, 4 * i + j - 1)
  {
    t := new Elem[4];
    for r := 0 to 4
      invariant forall k: nat :: k < r ==> t[k] == if j != 0 then w[i, k, j - 1] else w[i - 1, k, 3]
    {
      t[r] := if j != 0 then w[i, r, j - 1] else w[i - 1, r, 3];
    }
    if j != 0 {
      WordPosition(i, j - 1);
    } else {
      WordPosition(i - 1, 3);
    }
  }

  method RotateAndSubstitute(t: array<Elem>, i: nat)
    requires t.Length == 4 && 1 <= i <= 10
    modifies t
    ensures ColumnIn(t) == ScheduleTerm(old(ColumnIn(t)), 4 * i)
  {
    hide SubElem; hide Add; hide Rcon;
    ghost var last := ColumnIn(t);
    var temp := t[0];
    for r := 0 to 3
      invariant t[0] == if r > 0 then SubElem(last.r1) else last.r0
      invariant t[1] == if r > 1 then SubElem(last.r2) else last.r1
      invariant t[2] == if r > 2 then SubElem(last.r3) else last.r2
      invariant t[3] == last.r3
    {
      t[r] := SubElem(t[(r + 1) % 4]);
    }
    t[3] := SubElem(temp);
    assert 4 * i / 4 == i && 4 * i % 4 == 0;
    RoundConstantsArePowers(i);
    AddZero(t[1]);
    AddZero(t[2]);
    AddZero(t[3]);
    t[0] := Add(t[0], Elem(ROUND_CONSTANTS[i - 1]));
  }

  lemma PlainTerm(last: Column, i: nat, j: nat)
    requires i >= 1 && 0 < j < 4
    ensures ScheduleTerm(last, 4 * i + j) == last
  {
    WordPosition(i, j);
  }

  /** One turn of the inner loop of keyExpansion. */
  method ExpandWord(w: array3<Elem>, i: nat, j: nat)
    requires Is11x4x4(w) && 1 <= i < 11 && j < 4
    modifies w
    ensures WordOf(w, 4 * i + j) ==
      AddColumn(old(WordOf(w, 4 * i + j - 4)), ScheduleTerm(old(WordOf(w, 4 * i + j - 1)), 4 * i + j))
    ensures forall n: nat :: n < 44 && n != 4 * i + j ==> WordOf(w, n) == old(WordOf(w, n))
  {
    hide SubElem; hide Add; hide Rcon; hide ScheduleTerm;
    var t := PreviousWord(w, i, j);
    if j == 0 {
      RotateAndSubstitute(t, i);
    } else {
      PlainTerm(ColumnIn(t), i, j);
    }
    ghost var last, term := old(WordOf(w, 4 * i + j - 1)), ColumnIn(t);
    assert term == ScheduleTerm(last, 4 * i + j);
    for r := 0 to 4
      invariant ColumnIn(t) == term
      invariant forall k: nat :: k < 4 ==>
        w[i, k, j] == if k < r then Add(old(w[i - 1, k, j]), Row(term, k)) else old(w[i, k, j])
      invariant forall l: nat, k: nat, c: nat :: l < 11 && k < 4 && c < 4 && (l != i || c != j) ==>
        w[l, k, c] == old(w[l, k, c])
    {
      w[i, r, j] := Add(w[i - 1, r, j], t[r]);
    }
    WordPosition(i, j);
    WordPosition(i - 1, j);
  }

  /** The first two loops of keyExpansion: the key is the first round key. */
  method LoadKey(key: array<Byte>, w: array3<Elem>)
    requires Is11x4x4(w) && key.Length >= 16
    modifies w
    ensures forall n: nat :: n < 4 ==> WordOf(w, n) == Word(key[..16], n)
  {
    for r := 0 to 4
      invariant forall k: nat, j: nat :: k < r && j < 4 ==> w[0, k, j] == Elem(key[k + j * 4])
    {
      for c := 0 to 4
        invariant forall k: nat, j: nat :: k < 4 && j < 4 && (k < r || (k == r && j < c)) ==>
          w[0, k, j] == Elem(key[k + j * 4])
      {
        w[0, r, c] := Elem(key[r + c * 4]);
      }
    }
  }

  method KeyExpansion(key: array<Byte>, w: array3<Elem>)
    requires Is11x4x4(w) && key.Length >= 16
    modifies w
    ensures KeysOf(w) == Schedule(key[..16])
    ensures forall r: nat, c: nat :: r < 4 && c < 4 ==> w[0, r, c] == Elem(key[4 * c + r])
    ensures forall i: nat, r: nat, c: nat :: 1 <= i < 11 && r < 4 && 1 <= c < 4 ==>
      w[i, r, c] == Add(w[i - 1, r, c], w[i, r, c - 1])
    ensures forall i: nat, r: nat :: 1 <= i < 11 && r < 4 ==>
      w[i, r, 0] == Add(w[i - 1, r, 0], FirstTerm(Elem(SBox(w[i - 1, (r + 1) % 4, 3].bits)), i, r))
  {
    KeyExpansionLoop(key, w);
    hide *;
    forall i: nat, r: nat, c: nat | i < 11 && r < 4 && c < 4
      ensures w[i, r, c] == Entry(Schedule(key[..16])[i], r, c)
    {
      ScheduleHolds(w, key[..16], i, r, c);
    }
    forall r: nat, c: nat | r < 4 && c < 4 ensures w[0, r, c] == Elem(key[4 * c + r]) {
      ScheduleEntry(key[..16], 0, r, c);
    }
    forall i: nat, r: nat, c: nat | 1 <= i < 11 && r < 4 && 1 <= c < 4
      ensures w[i, r, c] == Add(w[i - 1, r, c], w[i, r, c - 1])
    {
      ScheduleEntry(key[..16], i, r, c);
    }
    forall i: nat, r: nat | 1 <= i < 11 && r < 4
      ensures w[i, r, 0] == Add(w[i - 1, r, 0], FirstTerm(Elem(SBox(w[i - 1, (r + 1) % 4, 3].bits)), i, r))
    {
      ScheduleEntry(key[..16], i, r, 0);
    }
  }

  lemma ScheduleHolds(w: array3<Elem>, key: seq<Byte>, i: nat, r: nat, c: nat)
    requires Is11x4x4(w) && |key| == 16 && KeysOf(w) == Schedule(key) && i < 11 && r < 4 && c < 4
    ensures w[i, r, c] == Entry(Schedule(key)[i], r, c)
  {
    hide Schedule; hide KeyOf; hide Entry;
    KeyEntry(w, i, r, c);
    assert KeysOf(w)[i] == KeyOf(w, i);
  }

  /** All the loops of keyExpansion. */
  method KeyExpansionLoop(key: array<Byte>, w: array3<Elem>)
    requires Is11x4x4(w) && key.Length >= 16
    modifies w
    ensures KeysOf(w) == Schedule(key[..16])
  {
    hide WordOf; hide Word; hide AddColumn; hide ScheduleTerm;
    LoadKey(key, w);
    ghost var k := key[..16];
    for i := 1 to 11
      invariant forall n: nat :: n < 4 * i ==> WordOf(w, n) == Word(k, n)
    {
      for j := 0 to 4
        invariant forall n: nat :: n < 4 * i + j ==> WordOf(w, n) == Word(k, n)
      {
        WordStep(k, 4 * i + j);
        ExpandWord(w, i, j);
      }
    }
  }

  lemma WordStep(key: seq<Byte>, n: nat)
    requires |key| == 16 && n >= 4
    ensures Word(key, n) == AddColumn(Word(key, n - 4), ScheduleTerm(Word(key, n - 1), n))
  {
  }

  // ---------- Cipher and inverse cipher ----------

  method LoadBlock(input: array<Byte>) returns (state: array2<Elem>)
    requires input.Length >= 16
    ensures fresh(state) && Is4x4(state)
    ensures StateOf(state) == StateOfBytes(input[..16])
  {
    state := new Elem[4, 4];
    for r := 0 to 4
      invariant forall i: nat, j: nat :: i < r && j < 4 ==> state[i, j] == Elem(input[j * 4 + i])
    {
      for c := 0 to 4
        invariant forall i: nat, j: nat :: i < 4 && j < 4 && (i < r || (i == r && j < c)) ==>
          state[i, j] == Elem(input[j * 4 + i])
      {
        state[r, c] := Elem(input[c * 4 + r]);
      }
    }
  }

  method StoreBlock(state: array2<Elem>, output: array<Byte>)
    requires Is4x4(state) && output.Length >= 16
    modifies output
    ensures output[..16] == BytesOfState(StateOf(state))
    ensures output[16..] == old(output[16..])
  {
    for r := 0 to 4
      invariant forall i: nat, j: nat :: i < r && j < 4 ==> output[j * 4 + i] == state[i, j].bits
      invariant output[16..] == old(output[16..])
    {
      for c := 0 to 4
        invariant forall i: nat, j: nat :: i < 4 && j < 4 && (i < r || (i == r && j < c)) ==>
          output[j * 4 + i] == state[i, j].bits
        invariant output[16..] == old(output[16..])
      {
        output[c * 4 + r] := state[r, c].bits;
      }
    }
  }

  method CipherInPlace(input: array<Byte>, output: array<Byte>, w: array3<Elem>)
    requires input.Length >= 16 && output.Length >= 16 && Is11x4x4(w)
    modifies output
    ensures output[..16] == EncryptBlock(KeysOf(w), old(input[..16]))
    ensures output[16..] == old(output[16..])
  {
    hide StateOf; hide StateOfBytes; hide BytesOfState;
    hide AddRoundKey; hide SubBytes; hide ShiftRows; hide MixColumns; hide KeyOf;
    ghost var s, keys := StateOfBytes(input[..16]), KeysOf(w);
    var state := LoadBlock(input);
    AddRoundKeyInPlace(state, w, 0);
    for i := 1 to 11
      invariant StateOf(state) == Forward(s, keys, i - 1) && output[..] == old(output[..])
    {
      SubBytesInPlace(state);
      ShiftRowsInPlace(state);
      if i != 10 {
        MixColumnsInPlace(state);
      }
      AddRoundKeyInPlace(state, w, i);
    }
    StoreBlock(state, output);
  }

  method InvCipherInPlace(input: array<Byte>, output: array<Byte>, w: array3<Elem>)
    requires input.Length >= 16 && output.Length >= 16 && Is11x4x4(w)
    modifies output
    ensures output[..16] == DecryptBlock(KeysOf(w), old(input[..16]))
    ensures output[16..] == old(output[16..])
  {
    hide StateOf; hide StateOfBytes; hide BytesOfState;
    hide AddRoundKey; hide InvSubBytes; hide InvShiftRows; hide InvMixColumns; hide KeyOf;
    ghost var s, keys := StateOfBytes(input[..16]), KeysOf(w);
    var state := LoadBlock(input);
    AddRoundKeyInPlace(state, w, 10);
    for i := 10 downto 0
      invariant StateOf(state) == Backward(s, keys, i) && output[..] == old(output[..])
    {
      InvShiftRowsInPlace(state);
      InvSubBytesInPlace(state);
      AddRoundKeyInPlace(state, w, i);
      if i != 0 {
        InvMixColumnsInPlace(state);
      }
    }
    StoreBlock(state, output);
  }
}
