/** Renaming a feature: one UPDATE for each sample that a query shows. */
module FeatureRename {
  import opened FeatureRows
  import opened FeatureGrouping
  import opened FeatureStore
  import opened IndexAllocator

  // ---------- The list of a query for one feature ----------

  /** For any user but -1, the owners of a pass show the rows that the users' UUIDs show. */
  lemma {:induction false} OwnersShowSame(users: int -> string, owners: int -> string, rows: seq<Row>, key: Key)
    requires owners(key.uid) == users(key.uid)
    ensures RowsWithKey(owners, rows, key) == RowsWithKey(users, rows, key)
  {
    if |rows| > 0 {
      OwnersShowSame(users, owners, rows[..|rows| - 1], key);
    }
  }

  function FeatureRange(key: Key): Range {
    Range(key.uid, key.biotype, Some(key.driver), key.index, key.index)
  }

  /** The range holds the rows with the key, and more if the uid, the type or the index is -1. */
  lemma FeatureRangeIs(key: Key, r: Row)
    ensures KeyOf(r) == key ==> Matches(FeatureRange(key), r)
    ensures key.uid != -1 && key.biotype != -1 && key.index != -1 && Matches(FeatureRange(key), r) ==> KeyOf(r) == key
  {
  }

  // ---------- Every row comes once ----------

  predicate DistinctIds(rows: seq<Row>) {
    forall i, j :: 0 <= i < j < |rows| ==> rows[i].id != rows[j].id
  }

  lemma {:induction false} SelectDistinct(q: Range, rows: seq<Row>)
    requires DistinctIds(rows)
    ensures DistinctIds(Select(q, rows))
  {
    if |rows| > 0 {
      var n := |rows| - 1;
      hide Matches;
      SelectDistinct(q, rows[..n]);
      var before := Select(q, rows[..n]);
      forall i | 0 <= i < |before| ensures before[i].id != rows[n].id {
        assert before[i] in rows[..n];
      }
    }
  }

  lemma {:induction false} ShownDistinct(users: int -> string, rows: seq<Row>, key: Key)
    requires DistinctIds(rows)
    ensures DistinctIds(RowsWithKey(users, rows, key))
  {
    if |rows| > 0 {
      var n := |rows| - 1;
      ShownDistinct(users, rows[..n], key);
      var before := RowsWithKey(users, rows[..n], key);
      hide Visible; hide KeyOf;
      forall i | 0 <= i < |before| ensures before[i].id != rows[n].id {
        RowsWithKeyMember(users, rows[..n], key, before[i]);
      }
    }
  }

  /** An arrangement of rows with distinct ids has distinct ids. */
  lemma ArrangementDistinct(a: seq<Row>, b: seq<Row>)
    requires DistinctIds(b) && multiset(a) == multiset(b)
    ensures DistinctIds(a)
  {
    forall i, j | 0 <= i < j < |a| ensures a[i].id != a[j].id {
      assert a[i] in multiset(b) && a[j] in multiset(b);
      var k :| 0 <= k < |b| && b[k] == a[i];
      var l :| 0 <= l < |b| && b[l] == a[j];
      if k == l {
        CountOfTwo(a, i, j);
        CountOfOne(b, k);
      }
    }
  }

  lemma CountOfTwo(a: seq<Row>, i: nat, j: nat)
    requires i < j < |a| && a[i] == a[j]
    ensures multiset(a)[a[i]] >= 2
  {
    assert a == a[..j] + a[j..];
    assert a[i] == a[..j][i] && a[j] == a[j..][0];
    assert a[i] in multiset(a[..j]) && a[i] in multiset(a[j..]);
  }

  lemma CountOfOne(b: seq<Row>, k: nat)
    requires DistinctIds(b) && k < |b|
    ensures multiset(b)[b[k]] == 1
  {
    assert b == b[..k] + [b[k]] + b[k + 1..];
    assert b[k] !in b[..k] && b[k] !in b[k + 1..];
    assert multiset(b) == multiset(b[..k]) + multiset{b[k]} + multiset(b[k + 1..]);
  }

  // ---------- The rename ----------

  /** The ids of the samples that carry the feature's name. */
  function TargetIds(users: int -> string, rows: seq<Row>, key: Key): set<int> {
    set r | r in rows && Visible(users, r) && KeyOf(r) == key :: r.id
  }

  function RenamedRow(done: set<int>, name: string, r: Row): Row {
    if r.id in done then r.(indexName := name) else r
  }

  function RenamedRows(done: set<int>, name: string, rows: seq<Row>): (after: seq<Row>)
    ensures |after| == |rows|
  {
    seq(|rows|, i requires 0 <= i < |rows| => RenamedRow(done, name, rows[i]))
  }

  /** What updates with the feature's own columns make of rows: those of the feature get its name,
      rows of others would be moved to it. */
  function MovedRow(done: set<int>, key: Key, name: string, r: Row): Row {
    if r.id !in done then r
    else r.(uid := key.uid, biotype := key.biotype, driver := key.driver, index := key.index, indexName := name)
  }

  function MovedRows(done: set<int>, key: Key, name: string, rows: seq<Row>): (after: seq<Row>)
    ensures |after| == |rows|
  {
    seq(|rows|, i requires 0 <= i < |rows| => MovedRow(done, key, name, rows[i]))
  }

  function MoveOf(key: Key, name: string, s: Sample): Update {
    Update(s.dbid, key.uid, key.biotype, key.driver, key.index, name, s.no)
  }

  lemma UpdateMoves(done: set<int>, key: Key, name: string, rows: seq<Row>, r: Row)
    requires DistinctIds(rows) && r in rows
    ensures UpdatedRows(MoveOf(key, name, SampleOf(r)), MovedRows(done, key, name, rows)) ==
      MovedRows(done + {r.id}, key, name, rows)
  {
    var k :| 0 <= k < |rows| && rows[k] == r;
    var before, after := MovedRows(done, key, name, rows), MovedRows(done + {r.id}, key, name, rows);
    forall i | 0 <= i < |rows| ensures UpdatedRow(MoveOf(key, name, SampleOf(r)), before[i]) == after[i] {
      if i < k {
        assert rows[i].id != rows[k].id;
      } else if i > k {
        assert rows[k].id != rows[i].id;
      }
    }
  }

  lemma NothingMoved(key: Key, name: string, rows: seq<Row>)
    ensures MovedRows({}, key, name, rows) == rows
  {
  }

  /** Moving rows of the feature renames them. */
  lemma MovesRename(done: set<int>, key: Key, name: string, rows: seq<Row>)
    requires forall r :: r in rows && r.id in done ==> KeyOf(r) == key
    ensures MovedRows(done, key, name, rows) == RenamedRows(done, name, rows)
  {
    forall i | 0 <= i < |rows| ensures MovedRow(done, key, name, rows[i]) == RenamedRow(done, name, rows[i]) {
      assert rows[i] in rows;
    }
  }

  function IdsOf(rows: seq<Row>): (ids: set<int>)
    ensures forall r :: r in rows ==> r.id in ids
  {
    set r | r in rows :: r.id
  }

  lemma {:induction false} CountIds(rows: seq<Row>)
    requires DistinctIds(rows)
    ensures |IdsOf(rows)| == |rows|
  {
    if |rows| > 0 {
      var n := |rows| - 1;
      CountIds(rows[..n]);
      assert rows == rows[..n] + [rows[n]];
      assert IdsOf(rows) == IdsOf(rows[..n]) + {rows[n].id};
      assert rows[n].id !in IdsOf(rows[..n]);
    }
  }

  /** The shown rows of what a query delivers are targets, each once; a whole answer has all. */
  lemma ShownAreTargets(users: int -> string, rows: seq<Row>, cursor: seq<Row>, key: Key)
    requires DistinctIds(rows) && Delivers(cursor, FeatureRange(key), rows)
    ensures DistinctIds(RowsWithKey(users, cursor, key))
    ensures forall r :: r in RowsWithKey(users, cursor, key) ==> r in rows && KeyOf(r) == key
    ensures IdsOf(RowsWithKey(users, cursor, key)) <= TargetIds(users, rows, key)
    ensures Answers(cursor, FeatureRange(key), rows) ==>
      IdsOf(RowsWithKey(users, cursor, key)) == TargetIds(users, rows, key)
  {
    var q, shown := FeatureRange(key), RowsWithKey(users, cursor, key);
    var whole := WholeIs(cursor, q, rows);
    SelectDistinct(q, rows);
    ArrangementDistinct(whole, Select(q, rows));
    assert DistinctIds(cursor);
    ShownDistinct(users, cursor, key);
    DeliveredContain(cursor, q, rows);
    hide Answers; hide Delivers; hide Sorted; hide DistinctIds; hide Matches; hide Visible; hide RowsWithKey;
    forall r ensures r in shown <==> r in cursor && Visible(users, r) && KeyOf(r) == key {
      RowsWithKeyMember(users, cursor, key, r);
    }
    if Answers(cursor, q, rows) {
      AnswersContain(cursor, q, rows);
      forall id | id in TargetIds(users, rows, key) ensures id in IdsOf(shown) {
        var r :| r in rows && Visible(users, r) && KeyOf(r) == key && r.id == id;
        FeatureRangeIs(key, r);
      }
    }
  }

  /** What a whole answer of a query for a feature shows of it. */
  lemma FeatureAnswered(owners: int -> string, rows: seq<Row>, cursor: seq<Row>, key: Key)
    requires DistinctIds(rows) && Answers(cursor, FeatureRange(key), rows)
    ensures Sorted(cursor)
    ensures forall r :: r in RowsWithKey(owners, cursor, key) <==> r in rows && Visible(owners, r) && KeyOf(r) == key
    ensures DistinctIds(RowsWithKey(owners, cursor, key))
    ensures IdsOf(RowsWithKey(owners, cursor, key)) == TargetIds(owners, rows, key)
  {
    AnswersContain(cursor, FeatureRange(key), rows);
    forall r | KeyOf(r) == key ensures r in cursor <==> r in rows {
      FeatureRangeIs(key, r);
    }
    forall r | r in cursor ensures r in rows {
    }
    hide Visible; hide RowsWithKey; hide IdsOf; hide TargetIds; hide DistinctIds; hide Matches; hide RowLeq; hide KeyOf;
    AnswersAreDelivered(cursor, FeatureRange(key), rows);
    ShownAreTargets(owners, rows, cursor, key);
    forall r ensures r in RowsWithKey(owners, cursor, key) <==> r in cursor && Visible(owners, r) && KeyOf(r) == key {
      RowsWithKeyMember(owners, cursor, key, r);
    }
  }

  // ---------- The samples that a rename reads ----------

  /** The test of the loop over the entries. */
  predicate Renames(info: Info, key: Key) {
    info.uid == key.uid && info.index == key.index
  }

  /** The samples of the entries that pass the test. */
  function SamplesRead(list: seq<Info>, key: Key): seq<Sample> {
    if |list| == 0 then []
    else
      var before, last := SamplesRead(list[..|list| - 1], key), list[|list| - 1];
      if Renames(last, key) then before + last.samples else before
  }

  function SampleIds(samples: seq<Sample>): (ids: set<int>)
    ensures forall s :: s in samples ==> s.dbid in ids
  {
    set s | s in samples :: s.dbid
  }

  predicate DistinctSamples(samples: seq<Sample>) {
    forall i, j :: 0 <= i < j < |samples| ==> samples[i].dbid != samples[j].dbid
  }

  /** Every sample is the one of a row. */
  ghost predicate FromRows(samples: seq<Sample>, rows: seq<Row>) {
    forall s :: s in samples ==> exists r :: r in rows && SampleOf(r) == s
  }

  lemma {:induction false} CountSamples(samples: seq<Sample>)
    requires DistinctSamples(samples)
    ensures |SampleIds(samples)| == |samples|
  {
    if |samples| > 0 {
      var n := |samples| - 1;
      CountSamples(samples[..n]);
      assert samples == samples[..n] + [samples[n]];
      assert SampleIds(samples) == SampleIds(samples[..n]) + {samples[n].dbid};
      assert samples[n].dbid !in SampleIds(samples[..n]);
    }
  }

  lemma {:induction false} ReadAreListed(list: seq<Info>, key: Key, s: Sample)
    requires s in SamplesRead(list, key)
    ensures s in AllSamples(list)
    ensures exists i :: 0 <= i < |list| && list[i].uid == key.uid && list[i].index == key.index && s in list[i].samples
  {
    var n := |list| - 1;
    if s in SamplesRead(list[..n], key) {
      ReadAreListed(list[..n], key, s);
      var i :| 0 <= i < n && Renames(list[..n][i], key) && s in list[..n][i].samples;
      assert Renames(list[i], key) && s in list[i].samples;
    } else {
      assert Renames(list[n], key) && s in list[n].samples;
    }
  }

  lemma {:induction false} ReadIsIn(list: seq<Info>, key: Key, i: nat, s: Sample)
    requires i < |list| && list[i].uid == key.uid && list[i].index == key.index && s in list[i].samples
    ensures s in SamplesRead(list, key)
  {
    if i < |list| - 1 {
      ReadIsIn(list[..|list| - 1], key, i, s);
    }
  }

  lemma SplitDistinct(a: seq<Sample>, b: seq<Sample>)
    ensures DistinctSamples(a + b) <==>
      DistinctSamples(a) && DistinctSamples(b) && forall s, t :: s in a && t in b ==> s.dbid != t.dbid
  {
    var c := a + b;
    if DistinctSamples(c) {
      assert DistinctSamples(a) by {
        forall i, j | 0 <= i < j < |a| ensures a[i].dbid != a[j].dbid {
          assert c[i] == a[i] && c[j] == a[j];
        }
      }
      assert DistinctSamples(b) by {
        forall i, j | 0 <= i < j < |b| ensures b[i].dbid != b[j].dbid {
          assert c[|a| + i] == b[i] && c[|a| + j] == b[j];
        }
      }
      forall s, t | s in a && t in b ensures s.dbid != t.dbid {
        var i :| 0 <= i < |a| && a[i] == s;
        var j :| 0 <= j < |b| && b[j] == t;
        assert c[i] == s && c[|a| + j] == t;
      }
    }
  }

  lemma {:induction false} ReadDistinct(list: seq<Info>, key: Key)
    requires DistinctSamples(AllSamples(list))
    ensures DistinctSamples(SamplesRead(list, key))
  {
    if |list| > 0 {
      var front, last := list[..|list| - 1], list[|list| - 1];
      SplitDistinct(AllSamples(front), last.samples);
      hide DistinctSamples;
      ReadDistinct(front, key);
      forall s, t | s in SamplesRead(front, key) && t in last.samples ensures s.dbid != t.dbid {
        ReadAreListed(front, key, s);
      }
      SplitDistinct(SamplesRead(front, key), last.samples);
    }
  }

  lemma {:induction false} VisibleDistinct(owners: int -> string, rows: seq<Row>)
    requires DistinctIds(rows)
    ensures DistinctSamples(SamplesOf(VisibleRows(owners, rows)))
    ensures DistinctIds(VisibleRows(owners, rows))
  {
    if |rows| > 0 {
      var n := |rows| - 1;
      hide Visible;
      VisibleDistinct(owners, rows[..n]);
      var before := VisibleRows(owners, rows[..n]);
      forall i | 0 <= i < |before| ensures before[i].id != rows[n].id {
        assert before[i] in rows[..n];
      }
    }
  }

  /** What is read of any delivered part are samples of rows of the table, each once. */
  lemma ReadOfDelivered(users: int -> string, rows: seq<Row>, q: Range, cursor: seq<Row>, key: Key)
    requires DistinctIds(rows) && Delivers(cursor, q, rows) && Typed(cursor)
    ensures DistinctSamples(SamplesRead(Run(users, cursor).list, key))
    ensures FromRows(SamplesRead(Run(users, cursor).list, key), rows)
  {
    var owners, list := Owners(users, cursor), Run(users, cursor).list;
    var whole := WholeIs(cursor, q, rows);
    SelectDistinct(q, rows);
    ArrangementDistinct(whole, Select(q, rows));
    assert DistinctIds(cursor) && OwnersOf(users, owners, cursor);
    DeliveredContain(cursor, q, rows);
    hide *;
    VisibleDistinct(owners, cursor);
    PassConserves(users, owners, cursor);
    ReadDistinct(list, key);
    forall s | s in SamplesRead(list, key) ensures exists r :: r in rows && SampleOf(r) == s {
      ReadAreListed(list, key, s);
      var i :| 0 <= i < |list| && Renames(list[i], key) && s in list[i].samples;
      var r := ListedIsVisible(users, cursor, i, s);
    }
    FromRowsIs(SamplesRead(list, key), rows);
  }

  lemma FromRowsIs(samples: seq<Sample>, rows: seq<Row>)
    requires forall s :: s in samples ==> exists r :: r in rows && SampleOf(r) == s
    ensures FromRows(samples, rows)
  {
  }

  // ---------- The loops ----------

  /** The samples `done` of the rows `base` were updated, and nothing else has changed. */
  ghost predicate Moved(table: Table, base: seq<Row>, done: set<int>, key: Key, newName: string)
    reads table
  {
    table.Valid() && DistinctIds(base) && table.rows == MovedRows(done, key, newName, base)
  }

  lemma MovedIs(table: Table, base: seq<Row>, done: set<int>, key: Key, newName: string)
    requires Moved(table, base, done, key, newName)
    ensures table.Valid() && table.rows == MovedRows(done, key, newName, base)
  {
  }

  lemma MovedStarts(table: Table, key: Key, newName: string)
    requires table.Valid()
    ensures Moved(table, table.rows, {}, key, newName)
  {
    NothingMoved(key, newName, table.rows);
  }

  /** One turn of the loop over the samples. */
  method RenameSample(table: Table, sample: Sample, key: Key, newName: string, updateOk: bool,
                      ghost base: seq<Row>, ghost done: set<int>)
    returns (ret: int)
    requires Moved(table, base, done, key, newName) && exists r :: r in base && SampleOf(r) == sample
    modifies table
    ensures ret == 0 <==> updateOk
    ensures Moved(table, base, if updateOk then done + {sample.dbid} else done, key, newName)
  {
    ghost var r :| r in base && SampleOf(r) == sample;
    UpdateMoves(done, key, newName, base, r);
    hide MovedRows; hide UpdatedRows; hide DistinctIds;
    ret := table.UpdateById(Update(sample.dbid, key.uid, key.biotype, key.driver, key.index, newName, sample.no),
                            true, updateOk);
  }

  lemma NextSample(samples: seq<Sample>, count: nat, rows: seq<Row>)
    requires DistinctSamples(samples) && count < |samples| && FromRows(samples, rows)
    ensures samples[count].dbid !in SampleIds(samples[..count])
    ensures SampleIds(samples[..count + 1]) == SampleIds(samples[..count]) + {samples[count].dbid}
    ensures exists r :: r in rows && SampleOf(r) == samples[count]
  {
    assert samples[..count + 1] == samples[..count] + [samples[count]];
    assert samples[count] in samples;
  }

  /** The ids of the samples whose updates succeed, when `first` numbers the first update. */
  ghost function UpdatedIds(samples: seq<Sample>, updateOk: nat -> bool, first: nat): set<int> {
    set k: nat | k < |samples| && updateOk(first + k) :: samples[k].dbid
  }

  lemma UpdatedNext(samples: seq<Sample>, updateOk: nat -> bool, first: nat, n: nat)
    requires n < |samples|
    ensures UpdatedIds(samples[..n + 1], updateOk, first) ==
      UpdatedIds(samples[..n], updateOk, first) + if updateOk(first + n) then {samples[n].dbid} else {}
  {
    var before, after := UpdatedIds(samples[..n], updateOk, first), UpdatedIds(samples[..n + 1], updateOk, first);
    forall id | id in before ensures id in after {
      var k: nat :| k < n && updateOk(first + k) && samples[..n][k].dbid == id;
      assert samples[..n + 1][k] == samples[k];
    }
    if updateOk(first + n) {
      assert samples[..n + 1][n] == samples[n];
    }
    forall id | id in after ensures id in before || (updateOk(first + n) && id == samples[n].dbid) {
      var k: nat :| k < n + 1 && updateOk(first + k) && samples[..n + 1][k].dbid == id;
      if k < n {
        assert samples[..n][k] == samples[k];
      }
    }
  }

  lemma NothingUpdated(updateOk: nat -> bool, first: nat)
    ensures UpdatedIds([], updateOk, first) == {}
  {
  }

  lemma UpdatedJoin(a: seq<Sample>, b: seq<Sample>, updateOk: nat -> bool)
    ensures UpdatedIds(a + b, updateOk, 0) == UpdatedIds(a, updateOk, 0) + UpdatedIds(b, updateOk, |a|)
  {
    var left, right, both := UpdatedIds(a, updateOk, 0), UpdatedIds(b, updateOk, |a|), UpdatedIds(a + b, updateOk, 0);
    forall id | id in left ensures id in both {
      var k: nat :| k < |a| && updateOk(0 + k) && a[k].dbid == id;
      assert (a + b)[k] == a[k];
    }
    forall id | id in right ensures id in both {
      var k: nat :| k < |b| && updateOk(|a| + k) && b[k].dbid == id;
      assert (a + b)[|a| + k] == b[k] && updateOk(0 + (|a| + k));
    }
    forall id | id in both ensures id in left || id in right {
      var k: nat :| k < |a + b| && updateOk(0 + k) && (a + b)[k].dbid == id;
      if k < |a| {
        assert a[k] == (a + b)[k];
      } else {
        assert b[k - |a|] == (a + b)[k] && updateOk(|a| + (k - |a|));
      }
    }
  }

  /** The loop over the samples of one entry; `first` numbers its first update. */
  method RenameSamples(table: Table, samples: seq<Sample>, key: Key, newName: string, updateOk: nat -> bool,
                       first: nat, ghost base: seq<Row>, ghost start: set<int>)
    returns (count: nat, updateNum: nat, ghost more: set<int>)
    requires Moved(table, base, start, key, newName) && DistinctSamples(samples) && FromRows(samples, base)
    modifies table
    ensures Moved(table, base, start + more, key, newName)
    ensures more == UpdatedIds(samples, updateOk, first)
    ensures more <= SampleIds(samples) && updateNum == |more| && count == |samples|
  {
    NothingUpdated(updateOk, first);
    hide DistinctSamples; hide Moved; hide SampleIds; hide FromRows; hide UpdatedIds;
    count, updateNum, more := 0, 0, {};
    assert start + {} == start;
    while count < |samples|
      invariant count <= |samples| && Moved(table, base, start + more, key, newName)
      invariant more <= SampleIds(samples[..count]) && |more| == updateNum
      invariant more == UpdatedIds(samples[..count], updateOk, first)
    {
      NextSample(samples, count, base);
      UpdatedNext(samples, updateOk, first, count);
      var ret := RenameSample(table, samples[count], key, newName, updateOk(first + count), base, start + more);
      if ret == 0 {
        assert start + more + {samples[count].dbid} == start + (more + {samples[count].dbid});
        more := more + {samples[count].dbid};
        updateNum := updateNum + 1;
      }
      count := count + 1;
    }
    assert samples[..count] == samples;
  }

  lemma NextRead(list: seq<Info>, key: Key, i: nat, rows: seq<Row>)
    requires i < |list| && DistinctSamples(SamplesRead(list, key)) && FromRows(SamplesRead(list, key), rows)
    ensures SamplesRead(list[..i + 1], key) ==
      SamplesRead(list[..i], key) + if Renames(list[i], key) then list[i].samples else []
    ensures Renames(list[i], key) ==> DistinctSamples(list[i].samples) && FromRows(list[i].samples, rows)
    ensures Renames(list[i], key) ==>
      forall s, t :: s in SamplesRead(list[..i], key) && t in list[i].samples ==> s.dbid != t.dbid
  {
    assert list[..i + 1][..i] == list[..i];
    ReadPrefix(list, key, i + 1);
    var read, first := SamplesRead(list, key), SamplesRead(list[..i + 1], key);
    assert read == first + read[|first|..];
    SplitDistinct(first, read[|first|..]);
    SplitDistinct(SamplesRead(list[..i], key), if Renames(list[i], key) then list[i].samples else []);
    forall s | Renames(list[i], key) && s in list[i].samples ensures s in read {
      ReadIsIn(list, key, i, s);
    }
  }

  lemma {:induction false} ReadPrefix(list: seq<Info>, key: Key, i: nat)
    requires i <= |list|
    ensures SamplesRead(list[..i], key) <= SamplesRead(list, key)
    decreases |list| - i
  {
    if i == |list| {
      assert list[..i] == list;
    } else {
      assert list[..i + 1][..i] == list[..i];
      ReadPrefix(list, key, i + 1);
    }
  }

  lemma IdsJoin(a: seq<Sample>, b: seq<Sample>, done: set<int>, more: set<int>)
    requires done <= SampleIds(a) && more <= SampleIds(b) && forall s, t :: s in a && t in b ==> s.dbid != t.dbid
    ensures done + more <= SampleIds(a + b) && |done + more| == |done| + |more|
  {
    assert done !! more;
  }

  lemma UpdatedAre(samples: seq<Sample>, updateOk: nat -> bool)
    ensures UpdatedIds(samples, updateOk, 0) == set k: nat | k < |samples| && updateOk(k) :: samples[k].dbid
  {
    assert forall k: nat :: updateOk(0 + k) == updateOk(k);
  }

  /** The loop over the entries. */
  method RenameEntries(table: Table, infoList: seq<Info>, key: Key, newName: string, updateOk: nat -> bool,
                       ghost base: seq<Row>)
    returns (failed: int, ghost done: set<int>)
    requires Moved(table, base, {}, key, newName)
    requires DistinctSamples(SamplesRead(infoList, key)) && FromRows(SamplesRead(infoList, key), base)
    modifies table
    ensures Moved(table, base, done, key, newName)
    ensures done == UpdatedIds(SamplesRead(infoList, key), updateOk, 0)
    ensures done <= SampleIds(SamplesRead(infoList, key)) && failed == |SamplesRead(infoList, key)| - |done|
  {
    NothingUpdated(updateOk, 0);
    hide Moved; hide DistinctSamples; hide SampleIds; hide FromRows; hide SamplesRead; hide UpdatedIds;
    var count: nat, updateNum: nat := 0, 0;
    done := {};
    NothingRead(infoList, key);
    for i := 0 to |infoList|
      invariant Moved(table, base, done, key, newName)
      invariant done <= SampleIds(SamplesRead(infoList[..i], key)) && updateNum == |done|
      invariant count == |SamplesRead(infoList[..i], key)|
      invariant done == UpdatedIds(SamplesRead(infoList[..i], key), updateOk, 0)
    {
      NextRead(infoList, key, i, base);
      var info := infoList[i];
      if info.uid == key.uid && info.index == key.index {
        assert Renames(info, key);
        var read, updated;
        ghost var more;
        read, updated, more := RenameSamples(table, info.samples, key, newName, updateOk, count, base, done);
        IdsJoin(SamplesRead(infoList[..i], key), info.samples, done, more);
        UpdatedJoin(SamplesRead(infoList[..i], key), info.samples, updateOk);
        count, updateNum, done := count + read, updateNum + updated, done + more;
      } else {
        assert SamplesRead(infoList[..i], key) + [] == SamplesRead(infoList[..i], key);
      }
    }
    assert infoList[..|infoList|] == infoList;
    return count - updateNum, done;
  }

  lemma NothingRead(list: seq<Info>, key: Key)
    ensures list[..0] == [] && SamplesRead(list[..0], key) == [] && SampleIds([]) == {}
  {
  }

  // ---------- The whole function ----------

  /** One entry at most passes the test, and its samples are those of the shown rows. */
  predicate OneToRename(list: seq<Info>, key: Key, shown: seq<Row>) {
    && (forall i :: 0 <= i < |list| && Renames(list[i], key) ==> list[i].samples == SamplesOf(shown) && shown != [])
    && (shown != [] ==> exists i :: 0 <= i < |list| && Renames(list[i], key))
  }

  /** On an index of the delivered rows, the test picks the entry of the feature. */
  lemma RenameList(owners: int -> string, rows: seq<Row>, key: Key, cursor: seq<Row>, list: seq<Info>)
    requires key.biotype >= 0 && Delivers(cursor, FeatureRange(key), rows) && IsIndex(owners, cursor, list)
    ensures OneToRename(list, key, RowsWithKey(owners, cursor, key))
    ensures forall i :: 0 <= i < |list| && Renames(list[i], key) ==> InfoKey(list[i]) == key
  {
    var shown := RowsWithKey(owners, cursor, key);
    DeliveredContain(cursor, FeatureRange(key), rows);
    hide Delivers; hide Sorted; hide RowsWithKey; hide KeyLess; hide Visible;
    forall i: nat | i < |list| && Renames(list[i], key) ensures InfoKey(list[i]) == key {
      var r := EntryHasRow(owners, cursor, list, i);
    }
    if shown != [] {
      var r := shown[0];
      RowsWithKeyMember(owners, cursor, key, r);
    }
    hide SamplesOf;
  }

  lemma ReadIsShown(list: seq<Info>, key: Key, shown: seq<Row>)
    requires OneToRename(list, key, shown)
    ensures SampleIds(SamplesRead(list, key)) == IdsOf(shown)
  {
    forall id ensures id in SampleIds(SamplesRead(list, key)) <==> id in IdsOf(shown) {
      if id in SampleIds(SamplesRead(list, key)) {
        var s :| s in SamplesRead(list, key) && s.dbid == id;
        ReadAreListed(list, key, s);
        var i :| 0 <= i < |list| && Renames(list[i], key) && s in list[i].samples;
        var k :| 0 <= k < |shown| && SamplesOf(shown)[k] == s;
        assert shown[k] in shown;
      }
      if id in IdsOf(shown) {
        var r :| r in shown && r.id == id;
        var i :| 0 <= i < |list| && Renames(list[i], key);
        SampleIsShown(shown, r);
        ReadIsIn(list, key, i, SampleOf(r));
      }
    }
  }

  /** Whatever rename is not for the uid -1 has a list without stale merges. */
  lemma OneUserPlain(users: int -> string, rows: seq<Row>, key: Key, cursor: seq<Row>)
    requires key.uid != -1 && key.biotype >= 0 && Delivers(cursor, FeatureRange(key), rows)
    ensures NoStaleMerge(Owners(users, cursor), cursor)
    ensures RowsWithKey(Owners(users, cursor), cursor, key) == RowsWithKey(users, cursor, key)
    ensures TargetIds(Owners(users, cursor), rows, key) == TargetIds(users, rows, key)
  {
    var owners := Owners(users, cursor);
    OneUser(rows, cursor, FeatureRange(key), key.uid, key.biotype);
    OneUserNoStaleMerge(owners, cursor, key.uid);
    OwnersShowSame(users, owners, cursor, key);
    assert forall r :: KeyOf(r) == key ==> (Visible(owners, r) <==> Visible(users, r));
  }

  /** Without a stale merge the samples that are read are those of the shown rows, and only they
      change, and only in their name. */
  lemma PlainRename(users: int -> string, rows: seq<Row>, key: Key, newName: string, cursor: seq<Row>, done: set<int>)
    requires DistinctIds(rows) && key.biotype >= 0 && Typed(cursor) && Delivers(cursor, FeatureRange(key), rows)
    requires NoStaleMerge(Owners(users, cursor), cursor)
    requires done <= SampleIds(SamplesRead(Run(users, cursor).list, key))
    ensures
      var owners, read := Owners(users, cursor), SampleIds(SamplesRead(Run(users, cursor).list, key));
      && read == IdsOf(RowsWithKey(owners, cursor, key)) <= TargetIds(owners, rows, key)
      && MovedRows(done, key, newName, rows) == RenamedRows(done, newName, rows)
      && (Answers(cursor, FeatureRange(key), rows) ==> read == TargetIds(owners, rows, key))
  {
    var owners, list := Owners(users, cursor), Run(users, cursor).list;
    DeliveredContain(cursor, FeatureRange(key), rows);
    hide *;
    PassIsExact(users, cursor);
    ListedIsIndex(owners, cursor);
    RenameList(owners, rows, key, cursor, list);
    ReadIsShown(list, key, RowsWithKey(owners, cursor, key));
    ShownAreTargets(owners, rows, cursor, key);
    TargetsHaveKey(owners, rows, key);
    MovesRename(done, key, newName, rows);
  }

  lemma TargetsHaveKey(owners: int -> string, rows: seq<Row>, key: Key)
    requires DistinctIds(rows)
    ensures forall r :: r in rows && r.id in TargetIds(owners, rows, key) ==> KeyOf(r) == key
  {
    forall r | r in rows && r.id in TargetIds(owners, rows, key) ensures KeyOf(r) == key {
      IsTarget(owners, rows, key, r);
    }
  }

  /** bio_comm_feature_rename_by_db, whatever part of its query is delivered: the result counts
      the samples read that were not updated, no other row changes, and 0 says that all were.
      Without a stale merge, and so for every uid but -1, only names change, the samples read are
      the shown ones of the feature, and the rename is complete exactly if the result is 0 and
      the query showed all of them. */
  method Rename(table: Table, users: int -> string, key: Key, newName: string, prepared: bool, cursor: seq<Row>,
                updateOk: nat -> bool)
    returns (failed: int, ghost done: set<int>)
    requires table.Valid() && key.biotype >= 0
    requires if prepared then Delivers(cursor, FeatureRange(key), table.rows) else cursor == []
    modifies table
    ensures table.Valid() && table.rows == MovedRows(done, key, newName, old(table.rows)) && Typed(cursor)
    ensures
      var samples := SamplesRead(Run(users, cursor).list, key);
      && done == (set k: nat | k < |samples| && updateOk(k) :: samples[k].dbid)
      && failed == |SampleIds(samples) - done| && (failed == 0 <==> done == SampleIds(samples))
    ensures NoStaleMerge(Owners(users, cursor), cursor) ==>
      var shown := IdsOf(RowsWithKey(Owners(users, cursor), cursor, key));
      var targets := TargetIds(Owners(users, cursor), old(table.rows), key);
      && table.rows == RenamedRows(done, newName, old(table.rows))
      && SampleIds(SamplesRead(Run(users, cursor).list, key)) == shown <= targets
      && (done == targets <==> failed == 0 && shown == targets)
      && (prepared && Answers(cursor, FeatureRange(key), old(table.rows)) ==> shown == targets)
    ensures key.uid != -1 ==>
      && NoStaleMerge(Owners(users, cursor), cursor)
      && RowsWithKey(Owners(users, cursor), cursor, key) == RowsWithKey(users, cursor, key)
  {
    ghost var base := table.rows;
    MovedStarts(table, key, newName);
    assert DistinctIds(base);
    UnpreparedDelivers(users, base, key);
    hide *;
    ghost var parts := if prepared then cursor else [];
    assert parts == cursor;
    QueryTyped(base, key, cursor);
    ReadOfDelivered(users, base, FeatureRange(key), cursor, key);
    var infoList := table.Get(users, FeatureRange(key), prepared, cursor);
    failed, done := RenameEntries(table, infoList, key, newName, updateOk, base);
    MovedIs(table, base, done, key, newName);
    UpdatedAre(SamplesRead(infoList, key), updateOk);
    CountSamples(SamplesRead(infoList, key));
    Missed(SampleIds(SamplesRead(infoList, key)), done);
    if NoStaleMerge(Owners(users, cursor), cursor) {
      PlainRename(users, base, key, newName, cursor, done);
      Complete(SampleIds(SamplesRead(infoList, key)), TargetIds(Owners(users, cursor), base, key), done);
    }
    if key.uid != -1 {
      OneUserPlain(users, base, key, cursor);
    }
  }

  /** A query that cannot be prepared delivers what every query may: nothing. */
  lemma UnpreparedDelivers(users: int -> string, rows: seq<Row>, key: Key)
    ensures Delivers([], FeatureRange(key), rows) && Typed([]) && Run(users, []).list == []
  {
    EveryQueryIsAnswered(FeatureRange(key), rows);
  }

  lemma QueryTyped(rows: seq<Row>, key: Key, cursor: seq<Row>)
    requires key.biotype >= 0 && Delivers(cursor, FeatureRange(key), rows)
    ensures Typed(cursor)
  {
    DeliveredContain(cursor, FeatureRange(key), rows);
  }

  lemma Missed(read: set<int>, done: set<int>)
    requires done <= read
    ensures |read - done| == |read| - |done|
    ensures |read - done| == 0 <==> done == read
  {
    assert read == done + (read - done);
    assert |read - done| == 0 ==> read - done == {};
  }

  lemma Complete(shown: set<int>, targets: set<int>, done: set<int>)
    requires done <= shown <= targets
    ensures done == targets <==> done == shown && shown == targets
  {
  }

  // ---------- What a query shows afterwards ----------

  lemma RenamedMember(done: set<int>, name: string, rows: seq<Row>, s: Row)
    ensures s in RenamedRows(done, name, rows) <==> exists r :: r in rows && s == RenamedRow(done, name, r)
  {
    if exists r :: r in rows && s == RenamedRow(done, name, r) {
      var r :| r in rows && s == RenamedRow(done, name, r);
      var k :| 0 <= k < |rows| && rows[k] == r;
      assert RenamedRows(done, name, rows)[k] == s;
    }
  }

  predicate StrictSamples(samples: seq<Sample>) {
    forall i, j :: 0 <= i < j < |samples| ==> samples[i].no < samples[j].no
  }

  lemma InitialSamples(a: seq<Sample>, s: Sample)
    requires StrictSamples(a) && |a| > 0
    ensures StrictSamples(a[..|a| - 1])
    ensures s in a[..|a| - 1] <==> s in a && s != a[|a| - 1]
  {
    if s in a && s != a[|a| - 1] {
      var k :| 0 <= k < |a| && a[k] == s;
      assert a[..|a| - 1][k] == s;
    }
  }

  lemma LastIsGreatest(a: seq<Sample>, s: Sample)
    requires StrictSamples(a) && s in a
    ensures s.no <= a[|a| - 1].no
    ensures s.no == a[|a| - 1].no ==> s == a[|a| - 1]
  {
  }

  lemma LastSampleAgrees(a: seq<Sample>, b: seq<Sample>)
    requires StrictSamples(a) && StrictSamples(b) && |a| > 0 && |b| > 0
    requires forall s :: s in a <==> s in b
    ensures a[|a| - 1] == b[|b| - 1]
  {
    LastIsGreatest(a, b[|b| - 1]);
    LastIsGreatest(b, a[|a| - 1]);
  }

  lemma FirstIsMember(b: seq<Sample>)
    requires |b| > 0
    ensures b[0] in b
  {
  }

  lemma {:induction false} StrictSamplesEqual(a: seq<Sample>, b: seq<Sample>)
    requires StrictSamples(a) && StrictSamples(b)
    requires forall s :: s in a <==> s in b
    ensures a == b
  {
    if |a| == 0 {
      if |b| > 0 {
        FirstIsMember(b);
      }
    } else {
      assert a[0] in b;
      LastSampleAgrees(a, b);
      var front, front2 := a[..|a| - 1], b[..|b| - 1];
      forall s ensures s in front <==> s in front2 {
        InitialSamples(a, s);
        InitialSamples(b, s);
      }
      InitialSamples(a, a[0]);
      InitialSamples(b, b[0]);
      StrictSamplesEqual(front, front2);
      assert a == front + [a[|a| - 1]] && b == front2 + [b[|b| - 1]];
    }
  }

  /** The samples of the feature have one name and different numbers. */
  predicate Uniform(users: int -> string, rows: seq<Row>, key: Key) {
    forall r, s :: r in rows && s in rows && Visible(users, r) && Visible(users, s) &&
                   KeyOf(r) == key && KeyOf(s) == key ==>
      r.indexName == s.indexName && (r.sampleNo == s.sampleNo ==> r == s)
  }

  lemma ShownInOrder(users: int -> string, rows: seq<Row>, cursor: seq<Row>, key: Key)
    requires DistinctIds(rows) && Answers(cursor, FeatureRange(key), rows) && Uniform(users, rows, key)
    ensures StrictSamples(SamplesOf(RowsWithKey(users, cursor, key)))
  {
    var shown := RowsWithKey(users, cursor, key);
    FeatureAnswered(users, rows, cursor, key);
    ShownSorted(users, cursor, key);
    hide Visible; hide RowsWithKey; hide Answers; hide IdsOf; hide TargetIds; hide Select; hide DistinctIds;
    forall i, j | 0 <= i < j < |shown| ensures shown[i].sampleNo < shown[j].sampleNo {
      RowsInOrder(shown[i], shown[j]);
      assert shown[i] != shown[j] by {
        DifferentRows(shown, i, j);
      }
    }
  }

  lemma DifferentRows(rows: seq<Row>, i: nat, j: nat)
    requires DistinctIds(rows) && i < j < |rows|
    ensures rows[i] != rows[j]
  {
  }

  lemma RowsInOrder(r: Row, s: Row)
    requires RowLeq(r, s) && KeyOf(r) == KeyOf(s) && r.uuid == s.uuid && r.indexName == s.indexName
    ensures r.sampleNo <= s.sampleNo
  {
    StringLessIrreflexive(r.uuid);
    StringLessIrreflexive(r.driver);
    StringLessIrreflexive(r.indexName);
  }

  lemma SamplesMember(rows: seq<Row>, s: Sample)
    ensures s in SamplesOf(rows) <==> exists r :: r in rows && s == SampleOf(r)
  {
    if exists r :: r in rows && s == SampleOf(r) {
      var r :| r in rows && s == SampleOf(r);
      var k :| 0 <= k < |rows| && rows[k] == r;
      assert SamplesOf(rows)[k] == s;
    }
  }

  lemma IsTarget(users: int -> string, rows: seq<Row>, key: Key, r: Row)
    requires DistinctIds(rows) && r in rows
    ensures r.id in TargetIds(users, rows, key) <==> Visible(users, r) && KeyOf(r) == key
  {
    if r.id in TargetIds(users, rows, key) {
      var t :| t in rows && Visible(users, t) && KeyOf(t) == key && t.id == r.id;
    }
  }

  lemma RenamedShown(users: int -> string, rows: seq<Row>, key: Key, newName: string, s: Row)
    requires DistinctIds(rows)
    ensures
      s in RenamedRows(TargetIds(users, rows, key), newName, rows) && Visible(users, s) && KeyOf(s) == key <==>
      s.indexName == newName &&
      exists r :: r in rows && Visible(users, r) && KeyOf(r) == key && s == r.(indexName := newName)
  {
    var done := TargetIds(users, rows, key);
    RenamedMember(done, newName, rows, s);
    hide RenamedRows; hide DistinctIds; hide TargetIds;
    if r :| r in rows && s == RenamedRow(done, newName, r) {
      IsTarget(users, rows, key, r);
    }
    if r :| r in rows && Visible(users, r) && KeyOf(r) == key && s == r.(indexName := newName) {
      IsTarget(users, rows, key, r);
      assert s == RenamedRow(done, newName, r);
    }
  }

  /** After a complete rename a query delivers the same rows with the new name. */
  lemma CursorAfterRename(users: int -> string, rows: seq<Row>, key: Key, newName: string, cursor: seq<Row>,
                          after: seq<Row>)
    requires DistinctIds(rows) && Answers(cursor, FeatureRange(key), rows)
    requires Answers(after, FeatureRange(key), RenamedRows(TargetIds(users, rows, key), newName, rows))
    ensures forall s :: s in RowsWithKey(users, after, key) <==>
      s.indexName == newName && exists r :: r in RowsWithKey(users, cursor, key) && s == r.(indexName := newName)
  {
    var done := TargetIds(users, rows, key);
    var rows2 := RenamedRows(done, newName, rows);
    RenamedDistinct(done, newName, rows);
    FeatureAnswered(users, rows, cursor, key);
    FeatureAnswered(users, rows2, after, key);
    hide *;
    forall s ensures s in RowsWithKey(users, after, key) <==>
      s.indexName == newName && exists r :: r in RowsWithKey(users, cursor, key) && s == r.(indexName := newName)
    {
      RenamedShown(users, rows, key, newName, s);
    }
  }

  /** The entry is the feature under its new name, with the same samples. */
  ghost predicate IsRenamed(before: Info, after: Info, newName: string) {
    && InfoKey(after) == InfoKey(before) && after.indexName == newName
    && forall s :: s in after.samples <==> s in before.samples
  }

  /** The list has an entry of the feature. */
  ghost predicate ListsFeature(list: seq<Info>, key: Key) {
    exists i :: 0 <= i < |list| && InfoKey(list[i]) == key
  }

  lemma UidBefore(q: Range, rows: seq<Row>, done: set<int>, newName: string, cursor: seq<Row>, after: seq<Row>, s: Row)
    returns (r: Row)
    requires Answers(cursor, q, rows) && Answers(after, q, RenamedRows(done, newName, rows)) && s in after
    ensures r in cursor && r.uid == s.uid
  {
    AnswersContain(cursor, q, rows);
    AnswersContain(after, q, RenamedRows(done, newName, rows));
    hide Answers; hide RenamedRows;
    RenamedMember(done, newName, rows, s);
    r :| r in rows && s == RenamedRow(done, newName, r);
  }

  lemma UidAfter(q: Range, rows: seq<Row>, done: set<int>, newName: string, cursor: seq<Row>, after: seq<Row>, r: Row)
    returns (s: Row)
    requires Answers(cursor, q, rows) && Answers(after, q, RenamedRows(done, newName, rows)) && r in cursor
    ensures s in after && r.uid == s.uid
  {
    AnswersContain(cursor, q, rows);
    AnswersContain(after, q, RenamedRows(done, newName, rows));
    hide Answers; hide RenamedRows;
    s := RenamedRow(done, newName, r);
    RenamedMember(done, newName, rows, s);
  }

  /** The users that the pass compares with are the same after a rename. */
  lemma OwnersAfterRename(users: int -> string, rows: seq<Row>, key: Key, done: set<int>, newName: string,
                          cursor: seq<Row>, after: seq<Row>)
    requires Answers(cursor, FeatureRange(key), rows)
    requires Answers(after, FeatureRange(key), RenamedRows(done, newName, rows))
    ensures cursor != [] && after != [] ==> Owners(users, after) == Owners(users, cursor)
    ensures cursor == [] <==> after == []
  {
    var q, rows2 := FeatureRange(key), RenamedRows(done, newName, rows);
    SortedAnswers(cursor, q, rows);
    SortedAnswers(after, q, rows2);
    hide RenamedRows; hide Answers; hide Sorted;
    if cursor != [] {
      var s := UidAfter(q, rows, done, newName, cursor, after, cursor[0]);
      FirstIsLeast(after);
    }
    if after != [] {
      var r := UidBefore(q, rows, done, newName, cursor, after, after[0]);
      FirstIsLeast(cursor);
    }
  }

  lemma SortedAnswers(cursor: seq<Row>, q: Range, rows: seq<Row>)
    requires Answers(cursor, q, rows)
    ensures Sorted(cursor)
  {
  }

  /** The entries of the feature before and after, on indices of both answers. */
  lemma EntriesCompare(owners: int -> string, rows: seq<Row>, key: Key, newName: string, cursor: seq<Row>,
                       after: seq<Row>, list: seq<Info>, list2: seq<Info>)
    requires DistinctIds(rows) && Answers(cursor, FeatureRange(key), rows)
    requires Answers(after, FeatureRange(key), RenamedRows(TargetIds(owners, rows, key), newName, rows))
    requires IsIndex(owners, cursor, list) && IsIndex(owners, after, list2)
    ensures ListsFeature(list, key) <==> ListsFeature(list2, key)
    ensures forall i, j :: 0 <= i < |list| && 0 <= j < |list2| && InfoKey(list[i]) == InfoKey(list2[j]) == key ==>
      && IsRenamed(list[i], list2[j], newName)
      && (Uniform(owners, rows, key) ==> list2[j] == list[i].(indexName := newName))
  {
    var shown, shown2 := RowsWithKey(owners, cursor, key), RowsWithKey(owners, after, key);
    var rows2 := RenamedRows(TargetIds(owners, rows, key), newName, rows);
    hide IsEntry; hide KeyLess; hide Answers; hide RenamedRows; hide TargetIds; hide DistinctIds; hide Uniform;
    hide StrictSamples; hide RowsWithKey; hide SamplesOf;
    RenamedDistinct(TargetIds(owners, rows, key), newName, rows);
    CursorAfterRename(owners, rows, key, newName, cursor, after);
    ShownRenamed(shown, shown2, newName);
    SameSamples(shown, shown2, newName);
    FeatureListed(owners, cursor, key, list);
    FeatureListed(owners, after, key, list2);
    if Uniform(owners, rows, key) {
      UniformAfterRename(owners, rows, key, newName);
      ShownInOrder(owners, rows, cursor, key);
      ShownInOrder(owners, rows2, after, key);
      StrictSamplesEqual(SamplesOf(shown), SamplesOf(shown2));
    }
  }

  /** An index lists a feature if rows of it are shown, with their samples. */
  lemma FeatureListed(owners: int -> string, cursor: seq<Row>, key: Key, list: seq<Info>)
    requires IsIndex(owners, cursor, list)
    ensures ListsFeature(list, key) <==> RowsWithKey(owners, cursor, key) != []
    ensures forall i :: 0 <= i < |list| && InfoKey(list[i]) == key ==>
      var shown := RowsWithKey(owners, cursor, key);
      shown != [] && list[i].indexName == shown[0].indexName && list[i].samples == SamplesOf(shown)
  {
    var shown := RowsWithKey(owners, cursor, key);
    hide RowsWithKey; hide KeyLess; hide Visible; hide SamplesOf;
    forall i | 0 <= i < |list| && InfoKey(list[i]) == key ensures IsEntry(list[i], shown) {
    }
    if shown != [] {
      RowsWithKeyMember(owners, cursor, key, shown[0]);
    }
  }

  /** After a complete rename the query lists the feature if it did before, under its new name and
      with the same samples; if these had one name and different numbers, the entries differ in the
      name only. For the uid -1, whose query shows other users too, no stale merge may be due. */
  lemma RenameShows(users: int -> string, rows: seq<Row>, key: Key, newName: string, cursor: seq<Row>, after: seq<Row>)
    requires key.biotype >= 0 && DistinctIds(rows) && Answers(cursor, FeatureRange(key), rows)
    requires Answers(after, FeatureRange(key),
                     RenamedRows(TargetIds(Owners(users, cursor), rows, key), newName, rows))
    requires key.uid == -1 ==> NoStaleMerge(Owners(users, cursor), cursor) && NoStaleMerge(Owners(users, after), after)
    ensures Typed(cursor) && Typed(after)
    ensures
      var list, list2 := Run(users, cursor).list, Run(users, after).list;
      && (ListsFeature(list, key) <==> ListsFeature(list2, key))
      && (forall i, j :: 0 <= i < |list| && 0 <= j < |list2| && InfoKey(list[i]) == InfoKey(list2[j]) == key ==>
            && IsRenamed(list[i], list2[j], newName)
            && (Uniform(Owners(users, cursor), rows, key) ==> list2[j] == list[i].(indexName := newName)))
      && (key.uid != -1 && key.index != -1 ==> |list| == |list2| <= 1)
  {
    var owners := Owners(users, cursor);
    var rows2 := RenamedRows(TargetIds(owners, rows, key), newName, rows);
    hide *;
    AnswersAreDelivered(cursor, FeatureRange(key), rows);
    AnswersAreDelivered(after, FeatureRange(key), rows2);
    QueryTyped(rows, key, cursor);
    QueryTyped(rows2, key, after);
    OwnersAfterRename(users, rows, key, TargetIds(owners, rows, key), newName, cursor, after);
    if cursor == [] {
      NothingListed(users, key);
    } else {
      if key.uid != -1 {
        OneUserPlain(users, rows, key, cursor);
        OneUserPlain(users, rows2, key, after);
      }
      ListIsIndex(users, rows, key, cursor);
      ListIsIndex(users, rows2, key, after);
      EntriesCompare(owners, rows, key, newName, cursor, after, Run(users, cursor).list, Run(users, after).list);
      if key.uid != -1 && key.index != -1 {
        OnlyFeature(owners, rows, key, cursor, Run(users, cursor).list);
        OnlyFeature(owners, rows2, key, after, Run(users, after).list);
        FeatureIsFirst(Run(users, cursor).list, key);
        FeatureIsFirst(Run(users, after).list, key);
      }
    }
  }

  lemma FirstTwoDiffer(list: seq<Info>)
    ensures |list| > 1 && KeyLess(InfoKey(list[0]), InfoKey(list[1])) ==> InfoKey(list[0]) != InfoKey(list[1])
  {
    if |list| > 1 {
      KeyLessIrreflexive(InfoKey(list[0]));
    }
  }

  /** The list for one feature has no other entries. */
  lemma OnlyFeature(owners: int -> string, rows: seq<Row>, key: Key, cursor: seq<Row>, list: seq<Info>)
    requires key.uid != -1 && key.biotype >= 0 && key.index != -1
    requires Answers(cursor, FeatureRange(key), rows) && IsIndex(owners, cursor, list)
    ensures |list| <= 1 && forall i :: 0 <= i < |list| ==> InfoKey(list[i]) == key
  {
    AnswersContain(cursor, FeatureRange(key), rows);
    hide KeyLess; hide Answers; hide RowsWithKey; hide Select;
    forall i: nat | i < |list| ensures InfoKey(list[i]) == key {
      var r := EntryHasRow(owners, cursor, list, i);
      FeatureRangeIs(key, r);
    }
    FirstTwoDiffer(list);
  }

  lemma FeatureIsFirst(list: seq<Info>, key: Key)
    requires |list| <= 1 && forall i :: 0 <= i < |list| ==> InfoKey(list[i]) == key
    ensures ListsFeature(list, key) <==> |list| == 1
  {
    assert |list| == 1 ==> InfoKey(list[0]) == key;
  }

  lemma NothingListed(users: int -> string, key: Key)
    ensures Run(users, []).list == [] && !ListsFeature([], key)
  {
  }

  lemma ListIsIndex(users: int -> string, rows: seq<Row>, key: Key, cursor: seq<Row>)
    requires Answers(cursor, FeatureRange(key), rows) && Typed(cursor) && NoStaleMerge(Owners(users, cursor), cursor)
    ensures IsIndex(Owners(users, cursor), cursor, Run(users, cursor).list)
  {
    SortedAnswers(cursor, FeatureRange(key), rows);
    hide *;
    PassIsExact(users, cursor);
    ListedIsIndex(Owners(users, cursor), cursor);
  }

  lemma ShownRenamed(shown: seq<Row>, shown2: seq<Row>, newName: string)
    requires forall s :: s in shown2 <==>
      s.indexName == newName && exists r :: r in shown && s == r.(indexName := newName)
    ensures shown == [] <==> shown2 == []
    ensures shown2 != [] ==> shown2[0].indexName == newName
  {
    if shown != [] {
      assert shown[0].(indexName := newName) in shown2;
    }
    if shown2 != [] {
      assert shown2[0] in shown2;
    }
  }

  lemma RenamedDistinct(done: set<int>, name: string, rows: seq<Row>)
    requires DistinctIds(rows)
    ensures DistinctIds(RenamedRows(done, name, rows))
  {
  }

  lemma SameSamples(shown: seq<Row>, shown2: seq<Row>, newName: string)
    requires forall s :: s in shown2 <==>
      s.indexName == newName && exists r :: r in shown && s == r.(indexName := newName)
    ensures forall s :: s in SamplesOf(shown2) <==> s in SamplesOf(shown)
  {
    hide SamplesOf;
    forall s ensures s in SamplesOf(shown2) <==> s in SamplesOf(shown) {
      SamplesMember(shown, s);
      SamplesMember(shown2, s);
      if t :| t in shown && s == SampleOf(t) {
        assert t.(indexName := newName) in shown2;
      }
    }
  }

  lemma UniformAfterRename(users: int -> string, rows: seq<Row>, key: Key, newName: string)
    requires DistinctIds(rows) && Uniform(users, rows, key)
    ensures Uniform(users, RenamedRows(TargetIds(users, rows, key), newName, rows), key)
  {
    var done := TargetIds(users, rows, key);
    var rows2 := RenamedRows(done, newName, rows);
    hide RenamedRows;
    forall r2, s2 | r2 in rows2 && s2 in rows2 && Visible(users, r2) && Visible(users, s2) &&
                    KeyOf(r2) == key && KeyOf(s2) == key
      ensures r2.indexName == s2.indexName && (r2.sampleNo == s2.sampleNo ==> r2 == s2)
    {
      RenamedMember(done, newName, rows, r2);
      RenamedMember(done, newName, rows, s2);
      var r :| r in rows && r2 == RenamedRow(done, newName, r);
      var s :| s in rows && s2 == RenamedRow(done, newName, s);
      assert r.id in done && s.id in done;
    }
  }
}
