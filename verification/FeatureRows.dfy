/** The rows of table EIGEN_INFO, the queries of the storage layer over them, and the order
    in which SQLite returns the rows of a query. */
module FeatureRows {

  datatype Option<T> = None | Some(value: T)

  /** One sample of one enrolled feature. Text is compared by its code points, which is the
      byte order of UTF-8. */
  datatype Row = Row(id: int, uid: int, uuid: string, biotype: int, driver: string, index: int,
                     indexName: string, sampleNo: int, data: seq<bv8>)

  // ---------- Selection ----------

  /** The range of a query; -1 and NULL stand for no restriction, as in the code. */
  datatype Range = Range(uid: int, biotype: int, driver: Option<string>, start: int, end: int)

  /** Every row of indices from 0. */
  const EVERYTHING := Range(-1, -1, None, 0, -1)

  predicate Matches(q: Range, r: Row) {
    && r.index >= q.start
    && (q.uid != -1 ==> r.uid == q.uid)
    && (q.biotype != -1 ==> r.biotype == q.biotype)
    && (q.driver.Some? ==> r.driver == q.driver.value)
    && (q.end != -1 ==> r.index <= q.end)
  }

  function Select(q: Range, rows: seq<Row>): (selected: seq<Row>)
    ensures forall r :: r in selected <==> r in rows && Matches(q, r)
  {
    if |rows| == 0 then []
    else
      var rest := Select(q, rows[..|rows| - 1]);
      if Matches(q, rows[|rows| - 1]) then rest + [rows[|rows| - 1]] else rest
  }

  // ---------- ORDER BY ----------

  /** Strict lexicographic order of strings. */
  predicate StringLess(a: string, b: string) {
    if |b| == 0 then false
    else if |a| == 0 then true
    else a[0] < b[0] || (a[0] == b[0] && StringLess(a[1..], b[1..]))
  }

  /** The first character in which two strings differ decides, or the length if there is none. */
  lemma {:induction false} StringLessIs(a: string, b: string, k: nat)
    requires k <= |a| && k <= |b| && a[..k] == b[..k]
    requires k < |a| && k < |b| ==> a[k] != b[k]
    ensures StringLess(a, b) <==> k < |b| && (k == |a| || a[k] < b[k])
  {
    if k > 0 {
      assert a[0] == a[..k][0] == b[..k][0] == b[0];
      assert a[1..][..k - 1] == a[..k][1..] == b[..k][1..] == b[1..][..k - 1];
      StringLessIs(a[1..], b[1..], k - 1);
    }
  }

  lemma {:induction false} StringLessIrreflexive(a: string)
    ensures !StringLess(a, a)
  {
    if |a| > 0 {
      StringLessIrreflexive(a[1..]);
    }
  }

  lemma {:induction false} StringLessTransitive(a: string, b: string, c: string)
    requires StringLess(a, b) && StringLess(b, c)
    ensures StringLess(a, c)
  {
    if |a| > 0 && a[0] == b[0] == c[0] {
      StringLessTransitive(a[1..], b[1..], c[1..]);
    }
  }

  lemma {:induction false} StringLessTotal(a: string, b: string)
    ensures StringLess(a, b) || a == b || StringLess(b, a)
  {
    if |a| > 0 && |b| > 0 && a[0] == b[0] {
      StringLessTotal(a[1..], b[1..]);
      assert a == [a[0]] + a[1..] && b == [b[0]] + b[1..];
    }
  }

  /** BioType, Driver, EigenIndex: the rows of one user with one UUID are grouped by these. */
  predicate FeatureLess(r: Row, s: Row) {
    r.biotype < s.biotype ||
    (r.biotype == s.biotype && (StringLess(r.driver, s.driver) || (r.driver == s.driver && r.index < s.index)))
  }

  predicate SameFeature(r: Row, s: Row) {
    r.biotype == s.biotype && r.driver == s.driver && r.index == s.index
  }

  /** EigenIndexName, SampleNo */
  predicate SampleLeq(r: Row, s: Row) {
    StringLess(r.indexName, s.indexName) || (r.indexName == s.indexName && r.sampleNo <= s.sampleNo)
  }

  /** ORDER BY UID, UUID, BioType, Driver, EigenIndex, EigenIndexName, SampleNo */
  predicate RowLeq(r: Row, s: Row) {
    r.uid < s.uid ||
    (r.uid == s.uid &&
     (StringLess(r.uuid, s.uuid) ||
      (r.uuid == s.uuid && (FeatureLess(r, s) || (SameFeature(r, s) && SampleLeq(r, s))))))
  }

  predicate Sorted(rows: seq<Row>) {
    forall i, j :: 0 <= i < j < |rows| ==> RowLeq(rows[i], rows[j])
  }

  /** The cursor of a query whose every step succeeds: the selected rows in an order that
      ORDER BY allows. Rows that tie may come in either order. */
  ghost predicate Answers(cursor: seq<Row>, q: Range, rows: seq<Row>) {
    Sorted(cursor) && multiset(cursor) == multiset(Select(q, rows))
  }

  /** What the cursor delivers when its steps may fail: the first rows of an answer. */
  ghost predicate Delivers(cursor: seq<Row>, q: Range, rows: seq<Row>) {
    exists whole :: Answers(whole, q, rows) && cursor <= whole
  }

  lemma FirstIsLeast(cursor: seq<Row>)
    requires Sorted(cursor) && cursor != []
    ensures forall r :: r in cursor ==> r.uid >= cursor[0].uid
  {
    forall r | r in cursor ensures r.uid >= cursor[0].uid {
      var k :| 0 <= k < |cursor| && cursor[k] == r;
      assert k > 0 ==> RowLeq(cursor[0], cursor[k]);
    }
  }

  lemma AnswersContain(cursor: seq<Row>, q: Range, rows: seq<Row>)
    requires Answers(cursor, q, rows)
    ensures forall r :: r in cursor <==> r in rows && Matches(q, r)
    ensures |cursor| == |Select(q, rows)|
  {
    var selected := Select(q, rows);
    forall r ensures r in cursor <==> r in selected {
      assert r in cursor <==> r in multiset(cursor);
      assert r in selected <==> r in multiset(selected);
    }
    assert |multiset(cursor)| == |cursor| && |multiset(selected)| == |selected|;
  }

  /** Which rows of the table a query delivers, and how often: each one that its restrictions allow,
      once; -1 and NULL restrict nothing. */
  lemma AnswerSelects(cursor: seq<Row>, q: Range, rows: seq<Row>, r: Row)
    requires Answers(cursor, q, rows)
    ensures multiset(cursor)[r] ==
      if && r.index >= q.start && (q.end == -1 || r.index <= q.end) && (q.uid == -1 || r.uid == q.uid)
         && (q.biotype == -1 || r.biotype == q.biotype) && (q.driver.None? || r.driver == q.driver.value)
      then multiset(rows)[r] else 0
  {
    SelectedCount(q, rows, r);
  }

  lemma {:induction false} SelectedCount(q: Range, rows: seq<Row>, r: Row)
    ensures multiset(Select(q, rows))[r] == if Matches(q, r) then multiset(rows)[r] else 0
  {
    if |rows| > 0 {
      SelectedCount(q, rows[..|rows| - 1], r);
      assert rows == rows[..|rows| - 1] + [rows[|rows| - 1]];
      hide Matches;
    }
  }

  lemma DeliveredContain(cursor: seq<Row>, q: Range, rows: seq<Row>)
    requires Delivers(cursor, q, rows)
    ensures Sorted(cursor) && forall r :: r in cursor ==> r in rows && Matches(q, r)
  {
    var whole :| Answers(whole, q, rows) && cursor <= whole;
    hide RowLeq; hide Matches;
    AnswersContain(whole, q, rows);
  }

  lemma AnswersAreDelivered(cursor: seq<Row>, q: Range, rows: seq<Row>)
    requires Answers(cursor, q, rows)
    ensures Delivers(cursor, q, rows)
  {
  }

  lemma FeatureLessTotal(r: Row, s: Row)
    ensures FeatureLess(r, s) || SameFeature(r, s) || FeatureLess(s, r)
  {
    StringLessTotal(r.driver, s.driver);
  }

  lemma FeatureLessTransitive(r: Row, s: Row, t: Row)
    requires FeatureLess(r, s) && FeatureLess(s, t)
    ensures FeatureLess(r, t)
  {
    if StringLess(r.driver, s.driver) && StringLess(s.driver, t.driver) {
      StringLessTransitive(r.driver, s.driver, t.driver);
    }
  }

  lemma RowLeqTotal(r: Row, s: Row)
    ensures RowLeq(r, s) || RowLeq(s, r)
  {
    StringLessTotal(r.uuid, s.uuid);
    FeatureLessTotal(r, s);
    StringLessTotal(r.indexName, s.indexName);
  }

  lemma SampleLeqTransitive(r: Row, s: Row, t: Row)
    requires SampleLeq(r, s) && SampleLeq(s, t)
    ensures SampleLeq(r, t)
  {
    if StringLess(r.indexName, s.indexName) && StringLess(s.indexName, t.indexName) {
      StringLessTransitive(r.indexName, s.indexName, t.indexName);
    }
  }

  lemma RowLeqTransitive(r: Row, s: Row, t: Row)
    requires RowLeq(r, s) && RowLeq(s, t)
    ensures RowLeq(r, t)
  {
    if r.uid == s.uid == t.uid {
      if StringLess(r.uuid, s.uuid) && StringLess(s.uuid, t.uuid) {
        StringLessTransitive(r.uuid, s.uuid, t.uuid);
      } else if r.uuid == s.uuid == t.uuid {
        if FeatureLess(r, s) && FeatureLess(s, t) {
          FeatureLessTransitive(r, s, t);
        } else if SameFeature(r, s) && SameFeature(s, t) {
          SampleLeqTransitive(r, s, t);
        }
      }
    }
  }

  // ---------- Every query can be answered ----------

  function InsertSorted(rows: seq<Row>, r: Row): seq<Row> {
    if |rows| == 0 || RowLeq(rows[|rows| - 1], r) then rows + [r]
    else InsertSorted(rows[..|rows| - 1], r) + [rows[|rows| - 1]]
  }

  function Sort(rows: seq<Row>): seq<Row> {
    if |rows| == 0 then [] else InsertSorted(Sort(rows[..|rows| - 1]), rows[|rows| - 1])
  }

  lemma {:induction false} InsertSortedKeeps(rows: seq<Row>, r: Row)
    ensures multiset(InsertSorted(rows, r)) == multiset(rows) + multiset{r}
    ensures Sorted(rows) ==> Sorted(InsertSorted(rows, r))
  {
    if |rows| == 0 || RowLeq(rows[|rows| - 1], r) {
      if Sorted(rows) {
        forall i | 0 <= i < |rows| ensures RowLeq(rows[i], r) {
          if i < |rows| - 1 {
            RowLeqTransitive(rows[i], rows[|rows| - 1], r);
          }
        }
      }
    } else {
      var front, last := rows[..|rows| - 1], rows[|rows| - 1];
      InsertSortedKeeps(front, r);
      assert rows == front + [last];
      RowLeqTotal(last, r);
      var inserted := InsertSorted(front, r);
      if Sorted(rows) {
        forall i | 0 <= i < |inserted| ensures RowLeq(inserted[i], last) {
          assert inserted[i] in multiset(inserted);
          assert inserted[i] in front || inserted[i] == r;
        }
      }
    }
  }

  lemma {:induction false} SortAnswers(rows: seq<Row>)
    ensures Sorted(Sort(rows)) && multiset(Sort(rows)) == multiset(rows)
  {
    if |rows| > 0 {
      SortAnswers(rows[..|rows| - 1]);
      InsertSortedKeeps(Sort(rows[..|rows| - 1]), rows[|rows| - 1]);
      assert rows == rows[..|rows| - 1] + [rows[|rows| - 1]];
    }
  }

  lemma EveryQueryIsAnswered(q: Range, rows: seq<Row>)
    ensures exists cursor :: Answers(cursor, q, rows)
  {
    SortAnswers(Select(q, rows));
    assert Answers(Sort(Select(q, rows)), q, rows);
  }
}
