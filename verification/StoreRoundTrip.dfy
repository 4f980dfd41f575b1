/** Inserting a canonical list into an empty table and reading everything back gives the same
    list, with the ids that the database chose. */
module StoreRoundTrip {
  import opened FeatureRows
  import opened FeatureGrouping
  import opened FeatureStore

  predicate CanonicalInfo(info: Info) {
    && info.biotype >= 0 && info.index >= 0 && |info.samples| > 0
    && forall i, j :: 0 <= i < j < |info.samples| ==> info.samples[i].no < info.samples[j].no
  }

  /** The UUIDs under which the users of a list in order are stored, and looked for later: the
      uid -1 has an empty one when it comes first. */
  function ListOwners(users: int -> string, infos: seq<Info>): int -> string {
    if infos != [] && infos[0].uid == -1 then WithNobody(users) else users
  }

  /** Strictly ordered entries with strictly ordered samples, of users with different UUIDs. */
  predicate Canonical(users: int -> string, infos: seq<Info>) {
    && Ordered(infos)
    && (forall a, b :: a in infos && b in infos && a.uid != b.uid ==>
          ListOwners(users, infos)(a.uid) != ListOwners(users, infos)(b.uid))
  }

  predicate Ordered(infos: seq<Info>) {
    && (forall info :: info in infos ==> CanonicalInfo(info))
    && (forall i, j :: 0 <= i < j < |infos| ==> KeyLess(InfoKey(infos[i]), InfoKey(infos[j])))
  }

  /** `owners` are the users' UUIDs under which every entry of the list is stored. */
  ghost predicate StoredUnder(users: int -> string, owners: int -> string, infos: seq<Info>) {
    forall n :: 0 < n <= |infos| ==> EntryUuid(users, infos[..n]) == owners(infos[n - 1].uid)
  }

  lemma OwnersOfList(users: int -> string, infos: seq<Info>)
    requires Ordered(infos)
    ensures StoredUnder(users, ListOwners(users, infos), infos)
  {
    forall n | 0 < n <= |infos|
      ensures EntryUuid(users, infos[..n]) == ListOwners(users, infos)(infos[n - 1].uid)
    {
      var first, last := infos[..n][0], infos[..n][n - 1];
      assert first in infos[..n] && last in infos[..n];
      assert n > 1 ==> KeyLess(InfoKey(infos[0]), InfoKey(infos[n - 1]));
      forall info | info in infos[..n] && first.uid == last.uid == -1 ensures info.uid == -1 {
        var k :| 0 <= k < n && infos[..n][k] == info;
        assert k > 0 ==> KeyLess(InfoKey(infos[0]), InfoKey(infos[k]));
        assert k < n - 1 ==> KeyLess(InfoKey(infos[k]), InfoKey(infos[n - 1]));
      }
    }
  }

  /** The rows of a list whose users have these UUIDs. */
  function OwnedRows(owners: int -> string, infos: seq<Info>, id: int): seq<Row> {
    if |infos| == 0 then []
    else
      var last := infos[|infos| - 1];
      AppendInfo(owners(last.uid), OwnedRows(owners, infos[..|infos| - 1], id), last, id)
  }

  lemma {:induction false} FlattenIsOwned(users: int -> string, owners: int -> string, infos: seq<Info>, id: int)
    requires StoredUnder(users, owners, infos)
    ensures Flatten(users, infos, id) == OwnedRows(owners, infos, id)
  {
    if |infos| > 0 {
      var n := |infos| - 1;
      hide AppendInfo; hide EntryUuid;
      assert infos[..|infos|] == infos;
      assert forall k :: 0 < k <= n ==> infos[..n][..k] == infos[..k];
      FlattenIsOwned(users, owners, infos[..n], id);
    }
  }

  function Renumbered(samples: seq<Sample>, id: int): (after: seq<Sample>)
    ensures |after| == |samples|
  {
    seq(|samples|, i requires 0 <= i < |samples| => samples[i].(dbid := id + i))
  }

  /** The list with the ids that its samples get, counted from `id`. */
  function WithIds(infos: seq<Info>, id: int): (list: seq<Info>)
    ensures |list| == |infos|
  {
    if |infos| == 0 then []
    else
      var before, last := infos[..|infos| - 1], infos[|infos| - 1];
      WithIds(before, id) + [last.(samples := Renumbered(last.samples, id + |AllSamples(before)|))]
  }

  lemma {:induction false} OneRowPerSample(owners: int -> string, infos: seq<Info>, id: int)
    ensures |OwnedRows(owners, infos, id)| == |AllSamples(infos)|
  {
    if |infos| > 0 {
      OneRowPerSample(owners, infos[..|infos| - 1], id);
    }
  }

  // ---------- The rows of a canonical list are strictly sorted ----------

  /** `r` comes before `s` in every answer. */
  predicate RowLess(r: Row, s: Row) {
    RowLeq(r, s) && !RowLeq(s, r)
  }

  predicate StrictlySorted(rows: seq<Row>) {
    forall i, j :: 0 <= i < j < |rows| ==> RowLess(rows[i], rows[j])
  }

  lemma KeyOrderIsRowOrder(owners: int -> string, r: Row, s: Row)
    requires Visible(owners, r) && Visible(owners, s) && KeyLess(KeyOf(r), KeyOf(s))
    ensures RowLess(r, s)
  {
    KeyLessIrreflexive(KeyOf(r));
    if RowLeq(s, r) {
      VisibleInKeyOrder(owners, s, r);
      if KeyLess(KeyOf(s), KeyOf(r)) {
        KeyLessTransitive(KeyOf(r), KeyOf(s), KeyOf(r));
      }
    }
  }

  lemma SampleOrderIsRowOrder(r: Row, s: Row)
    requires r.uid == s.uid && r.uuid == s.uuid && SameFeature(r, s)
    requires r.indexName == s.indexName && r.sampleNo < s.sampleNo
    ensures RowLess(r, s)
  {
    StringLessIrreflexive(r.uuid);
    StringLessIrreflexive(r.driver);
    StringLessIrreflexive(r.indexName);
  }

  lemma SampleRowsSorted(owners: int -> string, info: Info, m: nat, id: int)
    requires CanonicalInfo(info) && m <= |info.samples|
    ensures StrictlySorted(SampleRows(owners(info.uid), info, m, id))
  {
    hide RowLess; hide SampleRows;
    var rows := SampleRows(owners(info.uid), info, m, id);
    forall i, j | 0 <= i < j < m ensures RowLess(rows[i], rows[j]) {
      SampleRowAt(owners(info.uid), info, m, id, i);
      SampleRowAt(owners(info.uid), info, m, id, j);
      SampleOrderIsRowOrder(rows[i], rows[j]);
    }
  }

  /** Every row is a visible one of some entry. */
  lemma {:induction false} OwnedRow(owners: int -> string, infos: seq<Info>, id: int, r: Row)
    requires r in OwnedRows(owners, infos, id)
    ensures Visible(owners, r) && exists i :: 0 <= i < |infos| && InfoKey(infos[i]) == KeyOf(r)
  {
    var n := |infos| - 1;
    var before := OwnedRows(owners, infos[..n], id);
    if r in before {
      OwnedRow(owners, infos[..n], id, r);
      var i :| 0 <= i < n && InfoKey(infos[..n][i]) == KeyOf(r);
      assert InfoKey(infos[i]) == KeyOf(r);
    } else {
      var last := infos[n];
      var rows := SampleRows(owners(last.uid), last, |last.samples|, id + |before|);
      var j: nat :| j < |rows| && rows[j] == r;
      SampleRowAt(owners(last.uid), last, |last.samples|, id + |before|, j);
      assert InfoKey(infos[n]) == KeyOf(r);
    }
  }

  lemma OrderedPrefix(infos: seq<Info>, n: nat)
    requires Ordered(infos) && n <= |infos|
    ensures Ordered(infos[..n])
  {
    hide CanonicalInfo; hide KeyLess;
  }

  lemma SortedAppend(a: seq<Row>, b: seq<Row>)
    requires StrictlySorted(a) && StrictlySorted(b)
    requires forall r, s :: r in a && s in b ==> RowLess(r, s)
    ensures StrictlySorted(a + b)
  {
    hide RowLess;
  }

  lemma EarlierRow(owners: int -> string, infos: seq<Info>, id: int, r: Row, last: Info, m: nat, next: int, s: Row)
    requires r in OwnedRows(owners, infos, id)
    requires m <= |last.samples| && s in SampleRows(owners(last.uid), last, m, next)
    requires forall i :: 0 <= i < |infos| ==> KeyLess(InfoKey(infos[i]), InfoKey(last))
    ensures RowLess(r, s)
  {
    hide RowLess; hide KeyLess; hide OwnedRows; hide SampleRows;
    OwnedRow(owners, infos, id, r);
    var j: nat :| j < m && SampleRows(owners(last.uid), last, m, next)[j] == s;
    SampleRowAt(owners(last.uid), last, m, next, j);
    KeyOrderIsRowOrder(owners, r, s);
  }

  lemma OwnedRowsAppend(owners: int -> string, infos: seq<Info>, last: Info, id: int)
    ensures OwnedRows(owners, infos + [last], id) ==
      AppendInfo(owners(last.uid), OwnedRows(owners, infos, id), last, id)
  {
    hide AppendInfo;
    assert (infos + [last])[..|infos|] == infos;
  }

  lemma AppendInfoIs(uuid: string, before: seq<Row>, info: Info, id: int)
    ensures AppendInfo(uuid, before, info, id) == before + SampleRows(uuid, info, |info.samples|, id + |before|)
  {
  }

  lemma LastEntrySorted(owners: int -> string, infos: seq<Info>, last: Info, id: int)
    requires CanonicalInfo(last) && StrictlySorted(OwnedRows(owners, infos, id))
    requires forall i :: 0 <= i < |infos| ==> KeyLess(InfoKey(infos[i]), InfoKey(last))
    ensures StrictlySorted(OwnedRows(owners, infos + [last], id))
  {
    var m := |last.samples|;
    hide *;
    var before := OwnedRows(owners, infos, id);
    var next := id + |before|;
    var rows := SampleRows(owners(last.uid), last, m, next);
    SampleRowsSorted(owners, last, m, next);
    forall r, s | r in before && s in rows ensures RowLess(r, s) {
      EarlierRow(owners, infos, id, r, last, m, next, s);
    }
    SortedAppend(before, rows);
    OwnedRowsAppend(owners, infos, last, id);
    AppendInfoIs(owners(last.uid), before, last, id);
  }

  lemma {:induction false} OwnedRowsSorted(owners: int -> string, infos: seq<Info>, id: int)
    requires Ordered(infos)
    ensures StrictlySorted(OwnedRows(owners, infos, id))
  {
    if |infos| > 0 {
      var n := |infos| - 1;
      var before, last := infos[..n], infos[n];
      assert CanonicalInfo(last) && infos == before + [last];
      assert forall i :: 0 <= i < n ==> KeyLess(InfoKey(before[i]), InfoKey(last));
      OrderedPrefix(infos, n);
      OwnedRowsSorted(owners, before, id);
      hide *;
      LastEntrySorted(owners, before, last, id);
    }
  }

  // ---------- Strictly sorted rows have one sorted arrangement ----------

  lemma InitialRows(a: seq<Row>)
    requires |a| > 0
    ensures multiset(a[..|a| - 1]) == multiset(a) - multiset{a[|a| - 1]}
  {
    assert a == a[..|a| - 1] + [a[|a| - 1]];
  }

  lemma {:induction false} OneArrangement(a: seq<Row>, b: seq<Row>)
    requires Sorted(a) && StrictlySorted(b) && multiset(a) == multiset(b)
    ensures a == b
  {
    assert |a| == |multiset(a)| == |multiset(b)| == |b|;
    if |b| > 0 {
      var n := |b| - 1;
      LastAgrees(a, b);
      InitialRows(a);
      InitialRows(b);
      SortedPrefix(a, n);
      StrictlySortedPrefix(b, n);
      OneArrangement(a[..n], b[..n]);
      hide *;
      assert a == a[..n] + [a[n]] && b == b[..n] + [b[n]];
    }
  }

  lemma StrictlySortedPrefix(rows: seq<Row>, n: nat)
    requires StrictlySorted(rows) && n <= |rows|
    ensures StrictlySorted(rows[..n])
  {
    hide RowLess;
  }

  lemma LastAgrees(a: seq<Row>, b: seq<Row>)
    requires Sorted(a) && StrictlySorted(b) && multiset(a) == multiset(b) && |a| == |b| > 0
    ensures a[|a| - 1] == b[|b| - 1]
  {
    hide RowLeq;
    var n := |b| - 1;
    assert b[n] in multiset(a) && a[n] in multiset(b);
    var i :| 0 <= i <= n && a[i] == b[n];
    var j :| 0 <= j <= n && b[j] == a[n];
    assert i < n ==> RowLeq(a[i], a[n]);
    if j < n {
      assert RowLess(b[j], b[n]);
    }
  }

  // ---------- The list of the rows is the list ----------

  lemma ListedAppend(owners: int -> string, rows: seq<Row>, r: Row)
    requires Visible(owners, r)
    ensures Listed(owners, rows + [r]) == AddRow(Listed(owners, rows), r)
  {
    assert (rows + [r])[..|rows|] == rows;
  }

  function FirstSamples(info: Info, m: nat, id: int): Info
    requires m <= |info.samples|
  {
    info.(samples := Renumbered(info.samples[..m], id))
  }

  /** The row of sample `m` adds this sample to the entry that has those before it. */
  lemma NextSample(owners: int -> string, list: seq<Info>, info: Info, m: nat, id: int)
    requires m < |info.samples|
    requires m == 0 && |list| > 0 ==> InfoKey(list[|list| - 1]) != InfoKey(info)
    ensures
      AddRow(if m == 0 then list else list + [FirstSamples(info, m, id)],
             RowFor(owners(info.uid), info, info.samples[m], id + m)) ==
      list + [FirstSamples(info, m + 1, id)]
  {
    var r := RowFor(owners(info.uid), info, info.samples[m], id + m);
    assert Renumbered(info.samples[..m + 1], id) == Renumbered(info.samples[..m], id) + [SampleOf(r)];
    if m > 0 {
      var all := list + [FirstSamples(info, m, id)];
      var last := all[|all| - 1];
      assert all[..|all| - 1] == list && InfoKey(last) == KeyOf(r);
      assert last.(samples := last.samples + [SampleOf(r)]) == FirstSamples(info, m + 1, id);
    } else {
      assert NewInfo(r) == FirstSamples(info, 1, id);
      assert InfoKey(info) == KeyOf(r);
    }
  }

  lemma SampleRowsEnd(owners: int -> string, before: seq<Row>, info: Info, m: nat, id: int)
    requires 1 <= m <= |info.samples|
    ensures
      var rows := SampleRows(owners(info.uid), info, m - 1, id);
      var r := RowFor(owners(info.uid), info, info.samples[m - 1], id + m - 1);
      && before + SampleRows(owners(info.uid), info, m, id) == before + rows + [r]
      && (m == 1 ==> before + rows == before)
      && Visible(owners, r)
  {
  }

  /** Reading the rows of the first `m` samples of an entry behind those of other entries. */
  lemma {:induction false} SampleRowsListed(owners: int -> string, before: seq<Row>, info: Info, m: nat, id: int)
    requires 1 <= m <= |info.samples|
    requires
      var list := Listed(owners, before);
      |list| > 0 ==> InfoKey(list[|list| - 1]) != InfoKey(info)
    ensures Listed(owners, before + SampleRows(owners(info.uid), info, m, id)) ==
      Listed(owners, before) + [FirstSamples(info, m, id)]
  {
    hide *;
    var rows := SampleRows(owners(info.uid), info, m - 1, id);
    var r := RowFor(owners(info.uid), info, info.samples[m - 1], id + m - 1);
    SampleRowsEnd(owners, before, info, m, id);
    ListedAppend(owners, before + rows, r);
    if m > 1 {
      SampleRowsListed(owners, before, info, m - 1, id);
    }
    NextSample(owners, Listed(owners, before), info, m - 1, id);
  }

  lemma WithIdsKeys(infos: seq<Info>, id: int)
    ensures forall i :: 0 <= i < |infos| ==> InfoKey(WithIds(infos, id)[i]) == InfoKey(infos[i])
  {
  }

  lemma EndsElsewhere(infos: seq<Info>, id: int, last: Info)
    requires |infos| > 0 ==> KeyLess(InfoKey(infos[|infos| - 1]), InfoKey(last))
    ensures
      var list := WithIds(infos, id);
      |list| > 0 ==> InfoKey(list[|list| - 1]) != InfoKey(last)
  {
    WithIdsKeys(infos, id);
    KeyLessIrreflexive(InfoKey(last));
  }

  lemma WithIdsAppend(infos: seq<Info>, last: Info, id: int)
    ensures WithIds(infos + [last], id) ==
      WithIds(infos, id) + [FirstSamples(last, |last.samples|, id + |AllSamples(infos)|)]
  {
    hide AllSamples;
    assert (infos + [last])[..|infos|] == infos;
    assert last.samples[..|last.samples|] == last.samples;
  }

  lemma LastEntryListed(owners: int -> string, infos: seq<Info>, last: Info, id: int)
    requires |last.samples| > 0 && (|infos| > 0 ==> KeyLess(InfoKey(infos[|infos| - 1]), InfoKey(last)))
    requires Listed(owners, OwnedRows(owners, infos, id)) == WithIds(infos, id)
    ensures Listed(owners, OwnedRows(owners, infos + [last], id)) == WithIds(infos + [last], id)
  {
    hide *;
    var before := OwnedRows(owners, infos, id);
    EndsElsewhere(infos, id, last);
    SampleRowsListed(owners, before, last, |last.samples|, id + |before|);
    OwnedRowsAppend(owners, infos, last, id);
    assert AppendInfo(owners(last.uid), before, last, id) ==
           before + SampleRows(owners(last.uid), last, |last.samples|, id + |before|) by {
      AppendInfoIs(owners(last.uid), before, last, id);
    }
    OneRowPerSample(owners, infos, id);
    WithIdsAppend(infos, last, id);
  }

  lemma {:induction false} OwnedRowsListed(owners: int -> string, infos: seq<Info>, id: int)
    requires Ordered(infos)
    ensures Listed(owners, OwnedRows(owners, infos, id)) == WithIds(infos, id)
  {
    if |infos| > 0 {
      var n := |infos| - 1;
      var before, last := infos[..n], infos[n];
      assert CanonicalInfo(last) && infos == before + [last];
      assert n > 0 ==> KeyLess(InfoKey(before[n - 1]), InfoKey(last));
      OrderedPrefix(infos, n);
      OwnedRowsListed(owners, before, id);
      hide *;
      LastEntryListed(owners, before, last, id);
    }
  }

  // ---------- Main result ----------

  lemma OwnedRowsFacts(users: int -> string, infos: seq<Info>, id: int)
    requires Canonical(users, infos)
    ensures
      var owners := ListOwners(users, infos);
      var rows := OwnedRows(owners, infos, id);
      Typed(rows) && DistinctUuids(owners, rows) && forall r :: r in rows ==> Matches(EVERYTHING, r)
  {
    var owners := ListOwners(users, infos);
    var rows := OwnedRows(owners, infos, id);
    hide OwnedRows; hide KeyLess; hide ListOwners;
    forall r | r in rows
      ensures r.biotype >= 0 && r.index >= 0 && exists i :: 0 <= i < |infos| && infos[i].uid == r.uid
    {
      OwnedRow(owners, infos, id, r);
      var i :| 0 <= i < |infos| && InfoKey(infos[i]) == KeyOf(r);
      assert CanonicalInfo(infos[i]);
    }
  }

  lemma OwnersAgree(users: int -> string, infos: seq<Info>, id: int)
    requires Ordered(infos)
    ensures Owners(users, OwnedRows(ListOwners(users, infos), infos, id)) == ListOwners(users, infos)
  {
    var owners := ListOwners(users, infos);
    if infos != [] {
      assert infos[0] in infos && CanonicalInfo(infos[0]);
      FirstRow(owners, infos, id);
    }
  }

  lemma {:induction false} FirstRow(owners: int -> string, infos: seq<Info>, id: int)
    requires |infos| > 0 && |infos[0].samples| > 0
    ensures
      var rows := OwnedRows(owners, infos, id);
      rows != [] && rows[0].uid == infos[0].uid
  {
    var n := |infos| - 1;
    if n == 0 {
      SampleRowAt(owners(infos[0].uid), infos[0], |infos[0].samples|, id, 0);
    } else {
      hide SampleRows;
      FirstRow(owners, infos[..n], id);
    }
  }

  /** What was inserted into an empty table is read back, whatever order the database chooses. */
  lemma RoundTrip(users: int -> string, infos: seq<Info>, id: int, cursor: seq<Row>)
    requires Canonical(users, infos) && Answers(cursor, EVERYTHING, Flatten(users, infos, id))
    ensures Typed(cursor) && Run(users, cursor).list == WithIds(infos, id)
  {
    var owners := ListOwners(users, infos);
    var rows := OwnedRows(owners, infos, id);
    OwnedRowsFacts(users, infos, id);
    assert Ordered(infos);
    hide *;
    OwnersOfList(users, infos);
    FlattenIsOwned(users, owners, infos, id);
    SelectAll(EVERYTHING, rows);
    OwnedRowsSorted(owners, infos, id);
    SortedAnswer(cursor, rows);
    OneArrangement(cursor, rows);
    OwnedRowsListed(owners, infos, id);
    OwnersAgree(users, infos, id);
    DistinctUuidsSuffice(owners, cursor);
    PassIsExact(users, cursor);
  }

  lemma SortedAnswer(cursor: seq<Row>, rows: seq<Row>)
    requires Answers(cursor, EVERYTHING, rows) && Select(EVERYTHING, rows) == rows
    ensures Sorted(cursor) && multiset(cursor) == multiset(rows)
  {
  }
}
