/** The single pass that turns the sorted rows of a query into a list of features, each with
    its samples, and what that list should be. */
module FeatureGrouping {
  import opened FeatureRows

  datatype Sample = Sample(dbid: int, no: int, data: seq<bv8>)

  datatype Info = Info(uid: int, biotype: int, driver: string, index: int, indexName: string, samples: seq<Sample>)

  function SampleOf(r: Row): Sample {
    Sample(r.id, r.sampleNo, r.data)
  }

  function NewInfo(r: Row): Info {
    Info(r.uid, r.biotype, r.driver, r.index, r.indexName, [SampleOf(r)])
  }

  /** A row is shown only while its UUID is the one of its user. */
  predicate Visible(users: int -> string, r: Row) {
    r.uuid == users(r.uid)
  }

  // ---------- What the list should be ----------

  /** What makes two rows samples of one feature. */
  datatype Key = Key(uid: int, biotype: int, driver: string, index: int)

  function KeyOf(r: Row): Key {
    Key(r.uid, r.biotype, r.driver, r.index)
  }

  function InfoKey(info: Info): Key {
    Key(info.uid, info.biotype, info.driver, info.index)
  }

  function AddSample(list: seq<Info>, r: Row): (after: seq<Info>)
    requires |list| > 0
    ensures |after| == |list|
  {
    var last := list[|list| - 1];
    list[..|list| - 1] + [last.(samples := last.samples + [SampleOf(r)])]
  }

  function AddRow(list: seq<Info>, r: Row): (after: seq<Info>)
    ensures |after| > 0
  {
    if |list| > 0 && InfoKey(list[|list| - 1]) == KeyOf(r) then AddSample(list, r) else list + [NewInfo(r)]
  }

  /** Neighbouring visible rows with one key make up one entry. */
  function Listed(users: int -> string, rows: seq<Row>): seq<Info> {
    if |rows| == 0 then []
    else
      var before := Listed(users, rows[..|rows| - 1]);
      var r := rows[|rows| - 1];
      if Visible(users, r) then AddRow(before, r) else before
  }

  // ---------- The pass ----------

  /** The variables of the loop; `list` ends with the entry and the sample that the cursors
      `info` and `sample` point to. */
  datatype Pass = Pass(list: seq<Info>, oldUid: int, oldBiotype: int, oldDriver: Option<string>,
                       oldIndex: int, oldUuid: string, userUuid: string)

  const START := Pass([], -1, -1, None, -1, "", "")

  predicate Comparable(p: Pass, r: Row) {
    p.oldUid < r.uid || p.oldBiotype < r.biotype || p.oldDriver.Some?
  }

  predicate Changed(p: Pass, r: Row)
    requires Comparable(p, r)
  {
    p.oldUid < r.uid || p.oldBiotype < r.biotype || p.oldDriver.value != r.driver ||
    p.oldIndex < r.index || p.oldUuid != r.uuid
  }

  /** What holds before every row: a driver was recorded unless no entry exists yet. */
  predicate Running(p: Pass) {
    if p.list == [] then p.oldBiotype == -1 && p.oldDriver == None else p.oldDriver.Some?
  }

  function Step(p: Pass, users: int -> string, r: Row): (after: Pass)
    requires Running(p) && r.biotype >= 0
    ensures Running(after)
  {
    if Changed(p, r) then
      var q := if p.oldUid != r.uid then p.(userUuid := users(r.uid), oldUid := r.uid) else p;
      if r.uuid != q.userUuid then q
      else Pass(q.list + [NewInfo(r)], r.uid, r.biotype, Some(r.driver), r.index, r.uuid, q.userUuid)
    else if r.uuid != p.userUuid then p
    else p.(list := AddSample(p.list, r))
  }

  /** Types of devices are not negative; the pass starts from -1. */
  predicate Typed(rows: seq<Row>) {
    forall r :: r in rows ==> r.biotype >= 0
  }

  function Run(users: int -> string, rows: seq<Row>): (p: Pass)
    requires Typed(rows)
    ensures Running(p)
  {
    if |rows| == 0 then START else Step(Run(users, rows[..|rows| - 1]), users, rows[|rows| - 1])
  }

  /** The loop of bio_sto_get_feature_info over the rows that the cursor delivers. */
  method Group(users: int -> string, cursor: seq<Row>) returns (infoList: seq<Info>)
    requires Typed(cursor)
    ensures infoList == Run(users, cursor).list
  {
    var oldUid, oldBiotype, oldIndex := -1, -1, -1;
    var oldDriver: Option<string> := None;
    var oldUuid, userUuid := "", "";
    infoList := [];
    for i := 0 to |cursor|
      invariant Pass(infoList, oldUid, oldBiotype, oldDriver, oldIndex, oldUuid, userUuid) == Run(users, cursor[..i])
    {
      assert cursor[..i + 1][..i] == cursor[..i];
      var r := cursor[i];
      if oldUid < r.uid || oldBiotype < r.biotype || oldDriver.value != r.driver || oldIndex < r.index ||
         oldUuid != r.uuid
      {
        if oldUid != r.uid {
          userUuid := users(r.uid);
          oldUid := r.uid;
        }
        if r.uuid != userUuid {
          continue;
        }
        oldUid, oldBiotype, oldDriver, oldIndex, oldUuid := r.uid, r.biotype, Some(r.driver), r.index, r.uuid;
        infoList := infoList + [NewInfo(r)];
      } else {
        if r.uuid != userUuid {
          continue;
        }
        infoList := AddSample(infoList, r);
      }
    }
    assert cursor[..|cursor|] == cursor;
  }

  // ---------- The expected list is an index of the visible rows ----------

  predicate KeyLess(a: Key, b: Key) {
    a.uid < b.uid ||
    (a.uid == b.uid &&
     (a.biotype < b.biotype ||
      (a.biotype == b.biotype && (StringLess(a.driver, b.driver) || (a.driver == b.driver && a.index < b.index)))))
  }

  lemma KeyLessTransitive(a: Key, b: Key, c: Key)
    requires KeyLess(a, b) && KeyLess(b, c)
    ensures KeyLess(a, c)
  {
    if StringLess(a.driver, b.driver) && StringLess(b.driver, c.driver) {
      StringLessTransitive(a.driver, b.driver, c.driver);
    }
  }

  lemma KeyLessIrreflexive(a: Key)
    ensures !KeyLess(a, a)
  {
    StringLessIrreflexive(a.driver);
  }

  /** The visible rows with one key, in order. */
  function RowsWithKey(users: int -> string, rows: seq<Row>, key: Key): seq<Row> {
    if |rows| == 0 then []
    else
      var before, r := RowsWithKey(users, rows[..|rows| - 1], key), rows[|rows| - 1];
      if Visible(users, r) && KeyOf(r) == key then before + [r] else before
  }

  function SamplesOf(rows: seq<Row>): (samples: seq<Sample>)
    ensures |samples| == |rows|
  {
    seq(|rows|, i requires 0 <= i < |rows| => SampleOf(rows[i]))
  }

  /** The entry is the feature of some rows: it has the name of the first one, and their samples. */
  predicate IsEntry(info: Info, rows: seq<Row>) {
    rows != [] && info.indexName == rows[0].indexName && info.samples == SamplesOf(rows)
  }

  /** The entries are the keys of the visible rows, each key once and in order, and each entry
      has the name of the first and the samples of all visible rows with its key, in order. */
  ghost predicate IsIndex(users: int -> string, rows: seq<Row>, list: seq<Info>) {
    && (forall i, j :: 0 <= i < j < |list| ==> KeyLess(InfoKey(list[i]), InfoKey(list[j])))
    && (forall i :: 0 <= i < |list| ==> IsEntry(list[i], RowsWithKey(users, rows, InfoKey(list[i]))))
    && (forall r :: r in rows && Visible(users, r) ==> exists i :: 0 <= i < |list| && InfoKey(list[i]) == KeyOf(r))
  }

  /** The last visible row, if there is one. */
  function LastVisible(users: int -> string, rows: seq<Row>): (v: Option<Row>)
    ensures v.Some? ==> v.value in rows && Visible(users, v.value)
    ensures v.None? ==> forall r :: r in rows ==> !Visible(users, r)
  {
    if |rows| == 0 then None
    else if Visible(users, rows[|rows| - 1]) then Some(rows[|rows| - 1])
    else LastVisible(users, rows[..|rows| - 1])
  }

  lemma {:induction false} ListEndsWithLastVisible(users: int -> string, rows: seq<Row>)
    ensures LastVisible(users, rows).None? <==> Listed(users, rows) == []
    ensures LastVisible(users, rows).Some? ==>
      InfoKey(Listed(users, rows)[|Listed(users, rows)| - 1]) == KeyOf(LastVisible(users, rows).value)
  {
    if |rows| > 0 {
      ListEndsWithLastVisible(users, rows[..|rows| - 1]);
    }
  }

  /** Visible rows of one user have one UUID, so that they are in the order of their keys. */
  lemma VisibleInKeyOrder(users: int -> string, r: Row, s: Row)
    requires RowLeq(r, s) && Visible(users, r) && Visible(users, s)
    ensures KeyOf(r) == KeyOf(s) || KeyLess(KeyOf(r), KeyOf(s))
  {
    StringLessIrreflexive(r.uuid);
  }

  lemma NoRowsWithKey(users: int -> string, rows: seq<Row>, key: Key)
    requires forall r :: r in rows && Visible(users, r) ==> KeyOf(r) != key
    ensures RowsWithKey(users, rows, key) == []
  {
  }

  lemma RowsGrow(users: int -> string, before: seq<Row>, r: Row, key: Key)
    ensures RowsWithKey(users, before + [r], key) ==
      if Visible(users, r) && KeyOf(r) == key then RowsWithKey(users, before, key) + [r]
      else RowsWithKey(users, before, key)
  {
    assert (before + [r])[..|before|] == before;
  }

  lemma EntryGrows(info: Info, rows: seq<Row>, r: Row)
    requires IsEntry(info, rows)
    ensures IsEntry(info.(samples := info.samples + [SampleOf(r)]), rows + [r])
  {
    assert SamplesOf(rows + [r]) == SamplesOf(rows) + [SampleOf(r)];
  }

  lemma EntryStarts(r: Row)
    ensures IsEntry(NewInfo(r), [r])
  {
    assert SamplesOf([r]) == [SampleOf(r)];
  }

  lemma IndexSkips(users: int -> string, before: seq<Row>, r: Row, list: seq<Info>)
    requires IsIndex(users, before, list) && !Visible(users, r)
    ensures IsIndex(users, before + [r], list)
  {
    hide RowsWithKey; hide KeyLess; hide IsEntry;
    forall i | 0 <= i < |list| ensures IsEntry(list[i], RowsWithKey(users, before + [r], InfoKey(list[i]))) {
      RowsGrow(users, before, r, InfoKey(list[i]));
    }
  }

  /** Keys that were covered stay so, and the new row's key is covered too. */
  lemma KeysCovered(users: int -> string, before: seq<Row>, r: Row, list: seq<Info>, after: seq<Info>)
    requires forall s :: s in before && Visible(users, s) ==>
      exists i :: 0 <= i < |list| && InfoKey(list[i]) == KeyOf(s)
    requires |list| <= |after| && forall i :: 0 <= i < |list| ==> InfoKey(after[i]) == InfoKey(list[i])
    requires |after| > 0 && InfoKey(after[|after| - 1]) == KeyOf(r)
    ensures forall s :: s in before + [r] && Visible(users, s) ==>
      exists i :: 0 <= i < |after| && InfoKey(after[i]) == KeyOf(s)
  {
    forall s | s in before + [r] && Visible(users, s)
      ensures exists i :: 0 <= i < |after| && InfoKey(after[i]) == KeyOf(s)
    {
      if s in before {
        var i :| 0 <= i < |list| && InfoKey(list[i]) == KeyOf(s);
        assert InfoKey(after[i]) == KeyOf(s);
      }
    }
  }

  lemma IndexAddsSample(users: int -> string, before: seq<Row>, r: Row, list: seq<Info>)
    requires IsIndex(users, before, list) && Visible(users, r)
    requires |list| > 0 && InfoKey(list[|list| - 1]) == KeyOf(r)
    ensures IsIndex(users, before + [r], AddSample(list, r))
  {
    hide RowsWithKey; hide KeyLess; hide IsEntry;
    var n, after := |list| - 1, AddSample(list, r);
    assert forall i :: 0 <= i <= n ==> InfoKey(after[i]) == InfoKey(list[i]);
    forall i | 0 <= i <= n ensures IsEntry(after[i], RowsWithKey(users, before + [r], InfoKey(after[i]))) {
      RowsGrow(users, before, r, InfoKey(list[i]));
      if i < n {
        KeyLessIrreflexive(KeyOf(r));
      } else {
        EntryGrows(list[n], RowsWithKey(users, before, KeyOf(r)), r);
      }
    }
    KeysCovered(users, before, r, list, after);
  }

  lemma IndexAddsInfo(users: int -> string, before: seq<Row>, r: Row, list: seq<Info>)
    requires IsIndex(users, before, list) && Visible(users, r)
    requires forall i :: 0 <= i < |list| ==> KeyLess(InfoKey(list[i]), KeyOf(r))
    ensures IsIndex(users, before + [r], list + [NewInfo(r)])
  {
    hide RowsWithKey; hide KeyLess; hide IsEntry;
    var n, after := |list|, list + [NewInfo(r)];
    KeyLessIrreflexive(KeyOf(r));
    forall i | 0 <= i <= n ensures IsEntry(after[i], RowsWithKey(users, before + [r], InfoKey(after[i]))) {
      RowsGrow(users, before, r, InfoKey(after[i]));
      if i == n {
        NoRowsWithKey(users, before, KeyOf(r));
        assert [] + [r] == [r];
        EntryStarts(r);
      }
    }
    KeysCovered(users, before, r, list, after);
  }

  lemma KeysBelow(users: int -> string, before: seq<Row>, r: Row, list: seq<Info>)
    requires IsIndex(users, before, list) && Visible(users, r) && |list| > 0
    requires KeyLess(InfoKey(list[|list| - 1]), KeyOf(r))
    ensures forall i :: 0 <= i < |list| ==> KeyLess(InfoKey(list[i]), KeyOf(r))
  {
    hide RowsWithKey; hide KeyLess;
    forall i | 0 <= i < |list| ensures KeyLess(InfoKey(list[i]), KeyOf(r)) {
      if i < |list| - 1 {
        KeyLessTransitive(InfoKey(list[i]), InfoKey(list[|list| - 1]), KeyOf(r));
      }
    }
  }

  /** Of sorted rows the expected list has one entry per key, in order, with just its samples. */
  lemma {:induction false} ListedIsIndex(users: int -> string, rows: seq<Row>)
    requires Sorted(rows)
    ensures IsIndex(users, rows, Listed(users, rows))
  {
    if |rows| > 0 {
      var before, r := rows[..|rows| - 1], rows[|rows| - 1];
      var list := Listed(users, before);
      assert rows == before + [r];
      ListedIsIndex(users, before);
      hide KeyLess; hide IsIndex; hide RowsWithKey; hide RowLeq;
      if !Visible(users, r) {
        IndexSkips(users, before, r, list);
      } else if |list| > 0 && InfoKey(list[|list| - 1]) == KeyOf(r) {
        IndexAddsSample(users, before, r, list);
      } else {
        ListEndsWithLastVisible(users, before);
        if |list| > 0 {
          VisibleInKeyOrder(users, LastVisible(users, before).value, r);
          KeysBelow(users, before, r, list);
        }
        IndexAddsInfo(users, before, r, list);
      }
    }
  }

  // ---------- When the pass builds that list ----------

  /** The one way in which the pass joins two features: it reaches a visible row of a user of
      whom it has seen a row with another UUID, while its variables still describe a feature
      of an earlier user with the same UUID that does not come before the new one. */
  predicate StaleMerge(users: int -> string, before: seq<Row>, s: Row) {
    Visible(users, s) && |before| > 0 && before[|before| - 1].uid == s.uid &&
    match LastVisible(users, before)
    case None => false
    case Some(v) =>
      v.uid < s.uid && v.uuid == s.uuid && v.biotype >= s.biotype && v.driver == s.driver && v.index >= s.index
  }

  predicate NoStaleMerge(users: int -> string, rows: seq<Row>) {
    forall n :: 0 <= n < |rows| ==> !StaleMerge(users, rows[..n], rows[n])
  }

  /** The pass starts as if it knew the UUID of the uid -1, an empty one. */
  function WithNobody(users: int -> string): int -> string {
    (u: int) => if u == -1 then "" else users(u)
  }

  /** The UUIDs that the pass compares with: it asks for those of all users that it comes to,
      except for the uid -1 when the rows begin with it. */
  function Owners(users: int -> string, rows: seq<Row>): int -> string {
    if rows != [] && rows[0].uid == -1 then WithNobody(users) else users
  }

  /** No uid below -1 comes before it. */
  predicate NobodyFirst(rows: seq<Row>) {
    forall r :: r in rows ==> r.uid >= -1
  }

  lemma OwnerOfUser(users: int -> string, rows: seq<Row>, uid: int)
    requires uid != -1
    ensures Owners(users, rows)(uid) == users(uid)
  {
  }

  /** `owners` are the owners of a pass that begins with these rows. */
  ghost predicate OwnersOf(users: int -> string, owners: int -> string, rows: seq<Row>) {
    rows != [] ==> owners == Owners(users, rows)
  }

  /** The variables hold the last user and its UUID. */
  predicate Follows(p: Pass, owners: int -> string, rows: seq<Row>) {
    && (rows == [] ==> p.oldUid == -1 && p.userUuid == "" && p.list == [])
    && (rows != [] ==> p.oldUid == rows[|rows| - 1].uid && p.userUuid == owners(p.oldUid))
  }

  /** The variables describe the last user and the last visible row. */
  predicate Describes(p: Pass, owners: int -> string, rows: seq<Row>) {
    && Follows(p, owners, rows)
    && match LastVisible(owners, rows)
       case None => p.oldBiotype == -1 && p.oldDriver == None
       case Some(v) =>
         p.oldBiotype == v.biotype && p.oldDriver == Some(v.driver) && p.oldIndex == v.index && p.oldUuid == v.uuid
  }

  lemma SortedEnds(before: seq<Row>, r: Row, v: Row)
    requires Sorted(before + [r]) && v in before
    ensures RowLeq(v, r) && v.uid <= before[|before| - 1].uid <= r.uid
  {
    hide FeatureLess; hide SampleLeq;
    var i :| 0 <= i < |before| && before[i] == v;
    var rows, n := before + [r], |before|;
    assert rows[i] == v && rows[n - 1] == before[n - 1] && rows[n] == r;
    assert RowLeq(rows[i], rows[n]) && RowLeq(rows[n - 1], rows[n]);
    assert i < n - 1 ==> RowLeq(rows[i], rows[n - 1]);
  }

  lemma SortedStarts(before: seq<Row>, r: Row)
    requires Sorted(before + [r]) && before != []
    ensures before[0].uid <= before[|before| - 1].uid <= r.uid
  {
    hide FeatureLess; hide SampleLeq;
    SortedEnds(before, r, before[0]);
  }

  /** The UUID that a row is compared with is the one of its owner. */
  lemma FetchesOwner(p: Pass, users: int -> string, owners: int -> string, before: seq<Row>, r: Row)
    requires Sorted(before + [r]) && r.biotype >= 0 && Running(p)
    requires OwnersOf(users, owners, before + [r]) && Follows(p, owners, before)
    ensures p.oldUid != r.uid ==> Changed(p, r)
    ensures (if p.oldUid != r.uid then users(r.uid) else p.userUuid) == owners(r.uid)
  {
    if before != [] {
      SortedStarts(before, r);
      assert (before + [r])[0] == before[0];
    }
  }

  /** What every step does: the user is followed, and the sample of a visible row is added to
      the end of the list, to a new entry or to the last one. */
  lemma StepAdds(p: Pass, users: int -> string, owners: int -> string, before: seq<Row>, r: Row)
    requires Sorted(before + [r]) && r.biotype >= 0 && Running(p)
    requires OwnersOf(users, owners, before + [r]) && Follows(p, owners, before)
    ensures
      var after := Step(p, users, r);
      && Follows(after, owners, before + [r])
      && (if !Visible(owners, r) then
            after.list == p.list && after.oldBiotype == p.oldBiotype && after.oldDriver == p.oldDriver &&
            after.oldIndex == p.oldIndex && after.oldUuid == p.oldUuid
          else if Changed(p, r) then
            after.list == p.list + [NewInfo(r)] && after.oldBiotype == r.biotype && after.oldDriver == Some(r.driver) &&
            after.oldIndex == r.index && after.oldUuid == r.uuid
          else p.list != [] && after == p.(list := AddSample(p.list, r)))
  {
    FetchesOwner(p, users, owners, before, r);
    hide OwnersOf; hide RowLeq;
  }

  /** For a visible row the test of the pass says whether the key is new, or a stale merge is due. */
  lemma ChangedDecides(p: Pass, owners: int -> string, before: seq<Row>, r: Row)
    requires Sorted(before + [r]) && r.biotype >= 0
    requires Describes(p, owners, before) && Visible(owners, r) && Comparable(p, r)
    ensures !Changed(p, r) <==>
      StaleMerge(owners, before, r) ||
      (LastVisible(owners, before).Some? && KeyOf(LastVisible(owners, before).value) == KeyOf(r))
  {
    if LastVisible(owners, before).Some? {
      var v := LastVisible(owners, before).value;
      SortedEnds(before, r, v);
      StringLessIrreflexive(v.uuid);
      StringLessIrreflexive(v.driver);
    }
  }

  lemma LastVisibleGrows(owners: int -> string, before: seq<Row>, r: Row)
    ensures LastVisible(owners, before + [r]) == if Visible(owners, r) then Some(r) else LastVisible(owners, before)
  {
    assert (before + [r])[..|before|] == before;
  }

  lemma HiddenRowChangesNothing(p: Pass, users: int -> string, owners: int -> string, before: seq<Row>, r: Row)
    requires Sorted(before + [r]) && r.biotype >= 0 && Running(p)
    requires OwnersOf(users, owners, before + [r]) && Describes(p, owners, before) && !Visible(owners, r)
    ensures Step(p, users, r).list == p.list && Describes(Step(p, users, r), owners, before + [r])
  {
    StepAdds(p, users, owners, before, r);
    LastVisibleGrows(owners, before, r);
    hide LastVisible; hide Sorted; hide Step; hide OwnersOf;
  }

  lemma VisibleRowIsAdded(p: Pass, users: int -> string, owners: int -> string, before: seq<Row>, r: Row)
    requires Sorted(before + [r]) && r.biotype >= 0 && Running(p)
    requires OwnersOf(users, owners, before + [r]) && Describes(p, owners, before) && Visible(owners, r)
    requires !StaleMerge(owners, before, r) && p.list == Listed(owners, before)
    ensures Step(p, users, r).list == AddRow(p.list, r) && Describes(Step(p, users, r), owners, before + [r])
  {
    StepAdds(p, users, owners, before, r);
    LastVisibleGrows(owners, before, r);
    ChangedDecides(p, owners, before, r);
    ListEndsWithLastVisible(owners, before);
    hide LastVisible; hide Sorted; hide StaleMerge; hide Step; hide OwnersOf; hide Changed; hide Listed;
  }

  lemma SortedPrefix(rows: seq<Row>, n: nat)
    requires Sorted(rows) && n <= |rows|
    ensures Sorted(rows[..n])
  {
    hide RowLeq;
  }

  lemma NoStaleMergeInPrefix(users: int -> string, rows: seq<Row>, n: nat)
    requires NoStaleMerge(users, rows) && n <= |rows|
    ensures NoStaleMerge(users, rows[..n])
  {
    hide StaleMerge;
    forall k | 0 <= k < n ensures !StaleMerge(users, rows[..n][..k], rows[..n][k]) {
      assert rows[..n][..k] == rows[..k];
    }
  }

  lemma OwnersOfPrefix(users: int -> string, owners: int -> string, rows: seq<Row>, n: nat)
    requires OwnersOf(users, owners, rows) && n <= |rows|
    ensures OwnersOf(users, owners, rows[..n])
  {
  }

  lemma {:induction false} RunLists(users: int -> string, owners: int -> string, rows: seq<Row>)
    requires Sorted(rows) && Typed(rows) && OwnersOf(users, owners, rows) && NoStaleMerge(owners, rows)
    ensures Run(users, rows).list == Listed(owners, rows) && Describes(Run(users, rows), owners, rows)
  {
    if |rows| > 0 {
      var n := |rows| - 1;
      var before, r := rows[..n], rows[n];
      assert before + [r] == rows && !StaleMerge(owners, before, r) && Typed(before) && r.biotype >= 0;
      hide StaleMerge; hide Sorted; hide Describes; hide Step; hide AddRow; hide NoStaleMerge; hide Visible;
      hide LastVisible; hide OwnersOf; hide Typed;
      SortedPrefix(rows, n);
      NoStaleMergeInPrefix(owners, rows, n);
      OwnersOfPrefix(users, owners, rows, n);
      RunLists(users, owners, before);
      if Visible(owners, r) {
        VisibleRowIsAdded(Run(users, before), users, owners, before, r);
      } else {
        HiddenRowChangesNothing(Run(users, before), users, owners, before, r);
      }
    }
  }

  // ---------- What the pass always keeps ----------

  function VisibleRows(users: int -> string, rows: seq<Row>): (shown: seq<Row>)
    ensures forall r :: r in shown <==> r in rows && Visible(users, r)
  {
    if |rows| == 0 then []
    else
      var before := VisibleRows(users, rows[..|rows| - 1]);
      if Visible(users, rows[|rows| - 1]) then before + [rows[|rows| - 1]] else before
  }

  /** All samples of a list, in order. */
  function AllSamples(list: seq<Info>): seq<Sample> {
    if |list| == 0 then [] else AllSamples(list[..|list| - 1]) + list[|list| - 1].samples
  }

  lemma AllSamplesOfLast(list: seq<Info>, last: Info)
    ensures AllSamples(list + [last]) == AllSamples(list) + last.samples
  {
    assert (list + [last])[..|list|] == list;
  }

  lemma AllSamplesOfNew(list: seq<Info>, r: Row)
    ensures AllSamples(list + [NewInfo(r)]) == AllSamples(list) + [SampleOf(r)]
  {
    AllSamplesOfLast(list, NewInfo(r));
  }

  lemma Associates(a: seq<Sample>, b: seq<Sample>, c: seq<Sample>)
    ensures a + (b + c) == a + b + c
  {
  }

  lemma AddSampleIs(front: seq<Info>, last: Info, r: Row)
    ensures AddSample(front + [last], r) == front + [last.(samples := last.samples + [SampleOf(r)])]
  {
    assert (front + [last])[..|front|] == front;
  }

  lemma AllSamplesOfMore(front: seq<Info>, last: Info, r: Row)
    ensures AllSamples(AddSample(front + [last], r)) == AllSamples(front + [last]) + [SampleOf(r)]
  {
    hide *;
    var more := last.(samples := last.samples + [SampleOf(r)]);
    AddSampleIs(front, last, r);
    AllSamplesOfLast(front, last);
    AllSamplesOfLast(front, more);
    Associates(AllSamples(front), last.samples, [SampleOf(r)]);
  }

  lemma LastSplits(list: seq<Info>)
    requires |list| > 0
    ensures list[..|list| - 1] + [list[|list| - 1]] == list
  {
  }

  lemma AllSamplesOfAdded(list: seq<Info>, r: Row)
    requires |list| > 0
    ensures AllSamples(AddSample(list, r)) == AllSamples(list) + [SampleOf(r)]
  {
    hide *;
    LastSplits(list);
    AllSamplesOfMore(list[..|list| - 1], list[|list| - 1], r);
  }

  /** Even where the pass joins features, it neither loses nor repeats a sample: its samples are
      those of the visible rows, in order. */
  lemma {:induction false} PassConserves(users: int -> string, owners: int -> string, rows: seq<Row>)
    requires Sorted(rows) && Typed(rows) && OwnersOf(users, owners, rows)
    ensures Follows(Run(users, rows), owners, rows)
    ensures AllSamples(Run(users, rows).list) == SamplesOf(VisibleRows(owners, rows))
  {
    if |rows| > 0 {
      var n := |rows| - 1;
      var before, r := rows[..n], rows[n];
      var p, shown := Run(users, before), VisibleRows(owners, before);
      assert before + [r] == rows && Typed(before) && r.biotype >= 0;
      assert SamplesOf(shown + [r]) == SamplesOf(shown) + [SampleOf(r)];
      hide Sorted; hide Step; hide Visible; hide OwnersOf; hide Changed; hide AddSample; hide SamplesOf;
      hide AllSamples; hide Follows;
      SortedPrefix(rows, n);
      OwnersOfPrefix(users, owners, rows, n);
      PassConserves(users, owners, before);
      StepAdds(p, users, owners, before, r);
      AllSamplesOfNew(p.list, r);
      if p.list != [] {
        AllSamplesOfAdded(p.list, r);
      }
    }
  }

  lemma {:induction false} SampleInEntry(list: seq<Info>, s: Sample)
    requires s in AllSamples(list)
    ensures exists i :: 0 <= i < |list| && s in list[i].samples
  {
    var n := |list| - 1;
    if s in AllSamples(list[..n]) {
      SampleInEntry(list[..n], s);
      var i :| 0 <= i < n && s in list[..n][i].samples;
      assert s in list[i].samples;
    } else {
      assert s in list[n].samples;
    }
  }

  lemma {:induction false} RowsWithKeyMember(users: int -> string, rows: seq<Row>, key: Key, r: Row)
    ensures r in RowsWithKey(users, rows, key) <==> r in rows && Visible(users, r) && KeyOf(r) == key
  {
    if |rows| > 0 {
      var n := |rows| - 1;
      RowsWithKeyMember(users, rows[..n], key, r);
      assert rows == rows[..n] + [rows[n]];
      hide Visible; hide KeyOf;
    }
  }

  lemma {:induction false} ShownSorted(users: int -> string, rows: seq<Row>, key: Key)
    requires Sorted(rows)
    ensures Sorted(RowsWithKey(users, rows, key))
  {
    if |rows| > 0 {
      var n := |rows| - 1;
      hide RowLeq; hide Visible; hide KeyOf;
      ShownSorted(users, rows[..n], key);
      var before := RowsWithKey(users, rows[..n], key);
      forall i | 0 <= i < |before| ensures RowLeq(before[i], rows[n]) {
        RowsWithKeyMember(users, rows[..n], key, before[i]);
      }
    }
  }

  /** An entry has the least name of its rows, and their samples by name and then by number. */
  lemma EntryInOrder(owners: int -> string, rows: seq<Row>, list: seq<Info>, i: nat, j: nat, k: nat)
    requires Sorted(rows) && IsIndex(owners, rows, list) && i < |list| && j < k < |list[i].samples|
    ensures
      var shown := RowsWithKey(owners, rows, InfoKey(list[i]));
      && |shown| == |list[i].samples|
      && list[i].indexName == shown[0].indexName
      && list[i].samples[j] == Sample(shown[j].id, shown[j].sampleNo, shown[j].data)
      && (StringLess(shown[j].indexName, shown[k].indexName) ||
          (shown[j].indexName == shown[k].indexName && shown[j].sampleNo <= shown[k].sampleNo))
  {
    var key := InfoKey(list[i]);
    var shown := RowsWithKey(owners, rows, key);
    assert IsEntry(list[i], shown);
    ShownSorted(owners, rows, key);
    RowsWithKeyMember(owners, rows, key, shown[j]);
    RowsWithKeyMember(owners, rows, key, shown[k]);
    assert RowLeq(shown[j], shown[k]);
    StringLessIrreflexive(shown[j].uuid);
    StringLessIrreflexive(shown[j].driver);
    hide RowsWithKey; hide IsIndex;
  }

  lemma SampleIsShown(rows: seq<Row>, r: Row)
    requires r in rows
    ensures SampleOf(r) in SamplesOf(rows)
  {
    var k :| 0 <= k < |rows| && rows[k] == r;
    assert SamplesOf(rows)[k] == SampleOf(r);
  }

  /** Every visible row is listed in some entry, and in the entry of its own key unless a stale
      merge is due. */
  lemma VisibleIsListed(users: int -> string, cursor: seq<Row>, r: Row)
    requires Sorted(cursor) && Typed(cursor) && r in cursor && Visible(Owners(users, cursor), r)
    ensures
      var list := Run(users, cursor).list;
      && (exists i :: 0 <= i < |list| && SampleOf(r) in list[i].samples)
      && (NoStaleMerge(Owners(users, cursor), cursor) ==>
            exists i :: 0 <= i < |list| && InfoKey(list[i]) == KeyOf(r) && SampleOf(r) in list[i].samples)
  {
    var owners, list := Owners(users, cursor), Run(users, cursor).list;
    var shown := VisibleRows(owners, cursor);
    assert r in shown && OwnersOf(users, owners, cursor);
    hide *;
    PassConserves(users, owners, cursor);
    SampleIsShown(shown, r);
    SampleInEntry(list, SampleOf(r));
    if NoStaleMerge(owners, cursor) {
      PassIsExact(users, cursor);
      ListedIsIndex(owners, cursor);
      IndexHasSample(owners, cursor, list, r);
    }
  }

  lemma IndexHasSample(owners: int -> string, rows: seq<Row>, list: seq<Info>, r: Row)
    requires IsIndex(owners, rows, list) && r in rows && Visible(owners, r)
    ensures exists i :: 0 <= i < |list| && InfoKey(list[i]) == KeyOf(r) && SampleOf(r) in list[i].samples
  {
    var i :| 0 <= i < |list| && InfoKey(list[i]) == KeyOf(r);
    assert IsEntry(list[i], RowsWithKey(owners, rows, KeyOf(r)));
    hide RowsWithKey; hide KeyLess; hide SamplesOf;
    RowsWithKeyMember(owners, rows, KeyOf(r), r);
    SampleIsShown(RowsWithKey(owners, rows, KeyOf(r)), r);
  }

  lemma {:induction false} EntryInAllSamples(list: seq<Info>, i: nat, s: Sample)
    requires i < |list| && s in list[i].samples
    ensures s in AllSamples(list)
  {
    if i < |list| - 1 {
      EntryInAllSamples(list[..|list| - 1], i, s);
    }
  }

  /** No entry has a sample that no visible row has. */
  lemma ListedIsVisible(users: int -> string, cursor: seq<Row>, i: nat, s: Sample) returns (r: Row)
    requires Sorted(cursor) && Typed(cursor)
    requires i < |Run(users, cursor).list| && s in Run(users, cursor).list[i].samples
    ensures r in cursor && Visible(Owners(users, cursor), r) && SampleOf(r) == s
  {
    var owners := Owners(users, cursor);
    var shown := VisibleRows(owners, cursor);
    assert OwnersOf(users, owners, cursor);
    hide Run; hide Sorted; hide Typed; hide AllSamples; hide Owners; hide Follows;
    PassConserves(users, owners, cursor);
    EntryInAllSamples(Run(users, cursor).list, i, s);
    var k :| 0 <= k < |shown| && SamplesOf(shown)[k] == s;
    r := shown[k];
  }

  // ---------- What later rows leave of a list ----------

  /** The list keeps its entries in place; samples of later visible rows may be added to them,
      and the new entries are the features of such rows. */
  ghost predicate Extends(list: seq<Info>, after: seq<Info>, owners: int -> string, rest: seq<Row>) {
    && |list| <= |after|
    && (forall k :: 0 <= k < |list| ==> InfoKey(after[k]) == InfoKey(list[k]) && list[k].samples <= after[k].samples)
    && (forall k, s :: 0 <= k < |list| && s in after[k].samples ==>
          s in list[k].samples || SampleOfVisible(owners, rest, s))
    && (forall k :: |list| <= k < |after| ==> KeyOfVisible(owners, rest, InfoKey(after[k])))
  }

  ghost predicate SampleOfVisible(owners: int -> string, rows: seq<Row>, s: Sample) {
    exists r :: r in rows && Visible(owners, r) && SampleOf(r) == s
  }

  ghost predicate KeyOfVisible(owners: int -> string, rows: seq<Row>, key: Key) {
    exists r :: r in rows && Visible(owners, r) && KeyOf(r) == key
  }

  lemma VisibleOfMore(owners: int -> string, rows: seq<Row>, r: Row)
    ensures forall s :: SampleOfVisible(owners, rows, s) ==> SampleOfVisible(owners, rows + [r], s)
    ensures forall k :: KeyOfVisible(owners, rows, k) ==> KeyOfVisible(owners, rows + [r], k)
    ensures Visible(owners, r) ==>
      SampleOfVisible(owners, rows + [r], SampleOf(r)) && KeyOfVisible(owners, rows + [r], KeyOf(r))
  {
    hide Visible; hide KeyOf; hide SampleOf;
    forall s | SampleOfVisible(owners, rows, s) ensures SampleOfVisible(owners, rows + [r], s) {
      var q :| q in rows && Visible(owners, q) && SampleOf(q) == s;
      assert q in rows + [r];
    }
    forall k | KeyOfVisible(owners, rows, k) ensures KeyOfVisible(owners, rows + [r], k) {
      var q :| q in rows && Visible(owners, q) && KeyOf(q) == k;
      assert q in rows + [r];
    }
    assert r in rows + [r];
  }

  lemma ExtendsSkips(list: seq<Info>, after: seq<Info>, owners: int -> string, rest: seq<Row>, r: Row)
    requires Extends(list, after, owners, rest)
    ensures Extends(list, after, owners, rest + [r])
  {
    hide SampleOfVisible; hide KeyOfVisible;
    VisibleOfMore(owners, rest, r);
  }

  lemma ExtendsByEntry(list: seq<Info>, after: seq<Info>, owners: int -> string, rest: seq<Row>, r: Row)
    requires Extends(list, after, owners, rest) && Visible(owners, r)
    ensures Extends(list, after + [NewInfo(r)], owners, rest + [r])
  {
    assert InfoKey(NewInfo(r)) == KeyOf(r);
    hide SampleOfVisible; hide KeyOfVisible; hide Visible; hide InfoKey; hide KeyOf; hide NewInfo;
    VisibleOfMore(owners, rest, r);
  }

  lemma ExtendsBySample(list: seq<Info>, after: seq<Info>, owners: int -> string, rest: seq<Row>, r: Row)
    requires Extends(list, after, owners, rest) && Visible(owners, r) && |after| > 0
    ensures Extends(list, AddSample(after, r), owners, rest + [r])
  {
    var n, more := |after| - 1, AddSample(after, r);
    assert more[n].samples == after[n].samples + [SampleOf(r)] && InfoKey(more[n]) == InfoKey(after[n]);
    assert forall k :: 0 <= k < n ==> more[k] == after[k];
    hide SampleOfVisible; hide KeyOfVisible; hide Visible; hide InfoKey; hide KeyOf; hide AddSample; hide SampleOf;
    VisibleOfMore(owners, rest, r);
  }

  lemma ExtendsStep(list: seq<Info>, p: Pass, users: int -> string, owners: int -> string, before: seq<Row>,
                    rest: seq<Row>, r: Row)
    requires Sorted(before + [r]) && r.biotype >= 0 && Running(p)
    requires OwnersOf(users, owners, before + [r]) && Follows(p, owners, before)
    requires Extends(list, p.list, owners, rest)
    ensures Extends(list, Step(p, users, r).list, owners, rest + [r])
  {
    hide *;
    StepAdds(p, users, owners, before, r);
    ExtendsSkips(list, p.list, owners, rest, r);
    if Visible(owners, r) {
      ExtendsByEntry(list, p.list, owners, rest, r);
      if p.list != [] {
        ExtendsBySample(list, p.list, owners, rest, r);
      }
    }
  }

  lemma {:induction false} LaterRows(users: int -> string, owners: int -> string, before: seq<Row>, rest: seq<Row>)
    requires Sorted(before + rest) && Typed(before + rest) && Typed(before) && OwnersOf(users, owners, before + rest)
    ensures Extends(Run(users, before).list, Run(users, before + rest).list, owners, rest)
    decreases |rest|
  {
    if |rest| == 0 {
      assert before + rest == before;
    } else {
      var m := |rest| - 1;
      var all, r := before + rest[..m], rest[m];
      assert before + rest == all + [r] && rest == rest[..m] + [r];
      assert (all + [r])[..|all|] == all;
      hide *;
      SortedPrefix(all + [r], |all|);
      TypedPrefix(all + [r], |all|);
      OwnersOfPrefix(users, owners, all + [r], |all|);
      LaterRows(users, owners, before, rest[..m]);
      PassConserves(users, owners, all);
      RunUnfolds(users, all, r);
      ExtendsStep(Run(users, before).list, Run(users, all), users, owners, all, rest[..m], r);
    }
  }

  /** Later rows add no sample to the entries either, if none has the UUID of the last listed one. */
  lemma {:induction false} LaterRowsApart(users: int -> string, owners: int -> string, before: seq<Row>, rest: seq<Row>)
    requires Sorted(before + rest) && Typed(before + rest) && Typed(before) && OwnersOf(users, owners, before + rest)
    requires forall r :: r in rest && Visible(owners, r) ==> r.uuid != Run(users, before).oldUuid
    ensures Run(users, before).list <= Run(users, before + rest).list
    ensures |Run(users, before + rest).list| == |Run(users, before).list| ==>
      Run(users, before + rest).oldUuid == Run(users, before).oldUuid
    decreases |rest|
  {
    if |rest| == 0 {
      assert before + rest == before;
    } else {
      var m := |rest| - 1;
      var all, r := before + rest[..m], rest[m];
      assert before + rest == all + [r] && r in rest;
      assert (all + [r])[..|all|] == all;
      assert forall q :: q in rest[..m] ==> q in rest;
      hide *;
      SortedPrefix(all + [r], |all|);
      TypedPrefix(all + [r], |all|);
      OwnersOfPrefix(users, owners, all + [r], |all|);
      LaterRowsApart(users, owners, before, rest[..m]);
      PassConserves(users, owners, all);
      RunUnfolds(users, all, r);
      StepAdds(Run(users, all), users, owners, all, r);
      ListGrows(Run(users, before).list, Run(users, all), r);
    }
  }

  lemma ListGrows(list: seq<Info>, p: Pass, r: Row)
    requires Running(p) && r.biotype >= 0 && list <= p.list
    ensures list <= p.list + [NewInfo(r)] && |list| < |p.list + [NewInfo(r)]|
    ensures p.list != [] && |list| < |p.list| ==> list <= AddSample(p.list, r)
    ensures p.oldUuid != r.uuid ==> Changed(p, r)
  {
  }

  // ---------- When it does not ----------

  /** No step shortens the list or takes a sample from an entry. */
  lemma StepKeepsSamples(p: Pass, users: int -> string, r: Row, k: nat)
    requires Running(p) && r.biotype >= 0 && k < |p.list|
    ensures k < |Step(p, users, r).list| && |p.list[k].samples| <= |Step(p, users, r).list[k].samples|
  {
  }

  /** The number of samples of entry `k`, 0 while there is no such entry. */
  function SampleCount(list: seq<Info>, k: nat): nat {
    if k < |list| then |list[k].samples| else 0
  }

  lemma StepKeepsSampleCount(p: Pass, users: int -> string, r: Row, k: nat)
    requires Running(p) && r.biotype >= 0
    ensures SampleCount(p.list, k) <= SampleCount(Step(p, users, r).list, k)
  {
    hide Step;
    if k < |p.list| {
      StepKeepsSamples(p, users, r, k);
    }
  }

  lemma RunUnfolds(users: int -> string, before: seq<Row>, r: Row)
    requires Typed(before + [r])
    ensures Typed(before) && r.biotype >= 0
    ensures Run(users, before + [r]) == Step(Run(users, before), users, r)
  {
    hide Step;
    assert (before + [r])[..|before|] == before && (before + [r])[|before|] == r;
  }

  lemma {:induction false} RunKeepsSamples(users: int -> string, before: seq<Row>, rest: seq<Row>, k: nat)
    requires Typed(before) && Typed(before + rest)
    ensures SampleCount(Run(users, before).list, k) <= SampleCount(Run(users, before + rest).list, k)
    decreases |rest|
  {
    if |rest| == 0 {
      assert before + rest == before;
    } else {
      var m := |rest| - 1;
      assert before + rest == before + rest[..m] + [rest[m]];
      RunUnfolds(users, before + rest[..m], rest[m]);
      hide *;
      RunKeepsSamples(users, before, rest[..m], k);
      StepKeepsSampleCount(Run(users, before + rest[..m]), users, rest[m], k);
    }
  }

  /** An entry of the expected list is complete once a later one exists. */
  lemma {:induction false} ListedKeepsEntry(users: int -> string, before: seq<Row>, rest: seq<Row>, k: nat)
    requires k + 1 < |Listed(users, before)|
    ensures k + 1 < |Listed(users, before + rest)|
    ensures Listed(users, before + rest)[k] == Listed(users, before)[k]
    decreases |rest|
  {
    hide Visible;
    if |rest| == 0 {
      assert before + rest == before;
    } else {
      var m := |rest| - 1;
      assert (before + rest)[..|before| + m] == before + rest[..m];
      ListedKeepsEntry(users, before, rest[..m], k);
    }
  }

  /** The step of a stale merge gives the last entry a sample that belongs to a new one. */
  lemma StaleMergeJoins(users: int -> string, owners: int -> string, before: seq<Row>, s: Row)
    requires Sorted(before + [s]) && Typed(before + [s]) && Typed(before) && OwnersOf(users, owners, before + [s])
    requires Run(users, before).list == Listed(owners, before) && Describes(Run(users, before), owners, before)
    requires StaleMerge(owners, before, s)
    ensures |Listed(owners, before)| > 0
    ensures Step(Run(users, before), users, s).list == AddSample(Listed(owners, before), s)
    ensures AddRow(Listed(owners, before), s) == Listed(owners, before) + [NewInfo(s)]
  {
    assert s in before + [s];
    ChangedDecides(Run(users, before), owners, before, s);
    StepAdds(Run(users, before), users, owners, before, s);
    ListEndsWithLastVisible(owners, before);
    hide Step; hide Changed; hide Sorted; hide OwnersOf;
  }

  /** Right after it, the entry has one sample more than it should, and an entry is missing. */
  lemma StaleMergeMiscounts(users: int -> string, owners: int -> string, before: seq<Row>, s: Row)
    requires Sorted(before) && Sorted(before + [s]) && Typed(before + [s]) && Typed(before)
    requires OwnersOf(users, owners, before + [s]) && NoStaleMerge(owners, before) && StaleMerge(owners, before, s)
    ensures |Listed(owners, before)| > 0
    ensures |Run(users, before + [s]).list| == |Listed(owners, before)|
    ensures Listed(owners, before + [s]) == Listed(owners, before) + [NewInfo(s)]
    ensures
      var k := |Listed(owners, before)| - 1;
      SampleCount(Run(users, before + [s]).list, k) == |Listed(owners, before)[k].samples| + 1
  {
    assert Visible(owners, s);
    RunUnfolds(users, before, s);
    assert (before + [s])[..|before|] == before;
    OwnersOfPrefix(users, owners, before + [s], |before|);
    hide StaleMerge; hide Sorted; hide Describes; hide Step; hide AddRow; hide NoStaleMerge; hide Visible;
    hide LastVisible; hide OwnersOf;
    RunLists(users, owners, before);
    StaleMergeJoins(users, owners, before, s);
  }

  lemma StaleMergeShows(users: int -> string, owners: int -> string, before: seq<Row>, s: Row, rest: seq<Row>)
    requires Sorted(before) && Sorted(before + [s]) && Typed(before) && Typed(before + [s])
    requires Typed(before + [s] + rest) && OwnersOf(users, owners, before + [s])
    requires NoStaleMerge(owners, before) && StaleMerge(owners, before, s)
    ensures Run(users, before + [s] + rest).list != Listed(owners, before + [s] + rest)
  {
    hide StaleMerge; hide Sorted; hide Run; hide Listed; hide NoStaleMerge; hide Typed; hide OwnersOf;
    StaleMergeMiscounts(users, owners, before, s);
    var k := |Listed(owners, before)| - 1;
    RunKeepsSamples(users, before + [s], rest, k);
    ListedKeepsEntry(owners, before + [s], rest, k);
  }

  lemma {:induction false} FirstStaleMerge(users: int -> string, rows: seq<Row>) returns (n: nat)
    requires !NoStaleMerge(users, rows)
    ensures n < |rows| && NoStaleMerge(users, rows[..n]) && StaleMerge(users, rows[..n], rows[n])
  {
    hide StaleMerge;
    var m := |rows| - 1;
    if NoStaleMerge(users, rows[..m]) {
      n := m;
      assert forall k :: 0 <= k < m ==> rows[..m][..k] == rows[..k];
      assert forall k :: 0 <= k < m ==> !StaleMerge(users, rows[..m][..k], rows[..m][k]);
    } else {
      n := FirstStaleMerge(users, rows[..m]);
      assert rows[..m][..n] == rows[..n];
    }
  }

  lemma Splits(cursor: seq<Row>, n: nat)
    requires n < |cursor|
    ensures cursor[..n] + [cursor[n]] == cursor[..n + 1]
    ensures cursor[..n + 1] + cursor[n + 1..] == cursor
  {
  }

  lemma TypedPrefix(rows: seq<Row>, n: nat)
    requires Typed(rows) && n <= |rows|
    ensures Typed(rows[..n])
  {
  }

  lemma StaleMergeSpoils(users: int -> string, owners: int -> string, cursor: seq<Row>, n: nat)
    requires Sorted(cursor) && Typed(cursor) && OwnersOf(users, owners, cursor) && n < |cursor|
    requires NoStaleMerge(owners, cursor[..n]) && StaleMerge(owners, cursor[..n], cursor[n])
    ensures Run(users, cursor).list != Listed(owners, cursor)
  {
    hide *;
    Splits(cursor, n);
    SortedPrefix(cursor, n);
    SortedPrefix(cursor, n + 1);
    TypedPrefix(cursor, n);
    TypedPrefix(cursor, n + 1);
    OwnersOfPrefix(users, owners, cursor, n + 1);
    StaleMergeShows(users, owners, cursor[..n], cursor[n], cursor[n + 1..]);
  }

  lemma PassIsExactFor(users: int -> string, owners: int -> string, cursor: seq<Row>)
    requires Sorted(cursor) && Typed(cursor) && OwnersOf(users, owners, cursor)
    ensures Run(users, cursor).list == Listed(owners, cursor) <==> NoStaleMerge(owners, cursor)
  {
    hide *;
    if NoStaleMerge(owners, cursor) {
      RunLists(users, owners, cursor);
    } else {
      var n := FirstStaleMerge(owners, cursor);
      StaleMergeSpoils(users, owners, cursor, n);
    }
  }

  /** Over every sorted table, the pass yields the expected list exactly when no stale merge is due. */
  lemma PassIsExact(users: int -> string, cursor: seq<Row>)
    requires Sorted(cursor) && Typed(cursor)
    ensures
      var owners := Owners(users, cursor);
      Run(users, cursor).list == Listed(owners, cursor) <==> NoStaleMerge(owners, cursor)
  {
    var owners := Owners(users, cursor);
    assert OwnersOf(users, owners, cursor);
    hide *;
    PassIsExactFor(users, owners, cursor);
  }

  /** Users with different UUIDs rule stale merges out. */
  predicate DistinctUuids(users: int -> string, rows: seq<Row>) {
    forall r, s :: r in rows && s in rows && r.uid != s.uid ==> users(r.uid) != users(s.uid)
  }

  lemma DistinctUuidsSuffice(users: int -> string, rows: seq<Row>)
    requires DistinctUuids(users, rows)
    ensures NoStaleMerge(users, rows)
  {
    forall n | 0 <= n < |rows| ensures !StaleMerge(users, rows[..n], rows[n]) {
      match LastVisible(users, rows[..n]) {
        case None =>
        case Some(v) => assert v in rows && rows[n] in rows;
      }
    }
  }

  /** A feature of user 1000, and a row of user 1001 under another UUID before one under the
      default UUID that both users have. */
  function SharedUuidRows(other: string, def: string): seq<Row> {
    [Row(1, 1000, def, 0, "dev", 0, "a", 9, []), Row(2, 1001, other, 0, "dev", 0, "b", 9, [])]
  }

  function SharedUuidRow(def: string): Row {
    Row(3, 1001, def, 0, "dev", 0, "c", 9, [])
  }

  lemma SharedUuidListed(other: string, def: string)
    requires StringLess(other, def)
    ensures Listed(_ => def, SharedUuidRows(other, def)) == [NewInfo(SharedUuidRows(other, def)[0])]
    ensures LastVisible(_ => def, SharedUuidRows(other, def)) == Some(SharedUuidRows(other, def)[0])
  {
    StringLessIrreflexive(def);
    var users, rows := (_: int) => def, SharedUuidRows(other, def);
    assert rows[..1] == [rows[0]] && rows[..1][..0] == [];
    assert Listed(users, rows[..1]) == [NewInfo(rows[0])];
  }

  /** Two users whose UUID cannot be determined share a default one. Then the features of both
      can be listed as one: here one entry instead of two. */
  lemma SharedUuidMerges(other: string, def: string)
    requires StringLess(other, def)
    ensures
      var rows := SharedUuidRows(other, def) + [SharedUuidRow(def)];
      Sorted(rows) && Typed(rows) && |Run(_ => def, rows).list| == 1 && |Listed(_ => def, rows)| == 2
  {
    var users, before, s := (_: int) => def, SharedUuidRows(other, def), SharedUuidRow(def);
    assert NoStaleMerge(users, before);
    assert Sorted(before) && Sorted(before + [s]) && Typed(before + [s]) && Typed(before);
    assert OwnersOf(users, users, before + [s]);
    SharedUuidListed(other, def);
    assert StaleMerge(users, before, s);
    hide *;
    StaleMergeMiscounts(users, users, before, s);
  }
}
