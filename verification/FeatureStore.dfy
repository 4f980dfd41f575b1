/** The feature table as the storage layer changes it, statement by statement, and the list
    that a query gives back. The outcome of every SQLite call is a parameter. */
module FeatureStore {
  import opened FeatureRows
  import opened FeatureGrouping

  // ---------- The rows of a list ----------

  function UuidOf(users: int -> string, uid: int): string {
    users(uid)
  }

  /** The UUID under which the last of some entries is stored. The loop asks for the UUID when
      the uid changes; it starts from the uid -1 and an empty UUID. */
  function EntryUuid(users: int -> string, infos: seq<Info>): string
    requires |infos| > 0
  {
    if forall info :: info in infos ==> info.uid == -1 then "" else UuidOf(users, infos[|infos| - 1].uid)
  }

  function RowFor(uuid: string, info: Info, sample: Sample, id: int): Row {
    Row(id, info.uid, uuid, info.biotype, info.driver, info.index, info.indexName, sample.no, sample.data)
  }

  /** The rows for the first `m` samples of an entry. */
  function SampleRows(uuid: string, info: Info, m: nat, id: int): (rows: seq<Row>)
    requires m <= |info.samples|
    ensures |rows| == m
  {
    if m == 0 then []
    else SampleRows(uuid, info, m - 1, id) + [RowFor(uuid, info, info.samples[m - 1], id + m - 1)]
  }

  function AppendInfo(uuid: string, before: seq<Row>, info: Info, id: int): seq<Row> {
    before + SampleRows(uuid, info, |info.samples|, id + |before|)
  }

  /** All rows for a list, numbered from `id`. */
  function Flatten(users: int -> string, infos: seq<Info>, id: int): seq<Row> {
    if |infos| == 0 then []
    else
      AppendInfo(EntryUuid(users, infos), Flatten(users, infos[..|infos| - 1], id), infos[|infos| - 1], id)
  }

  lemma FlattenPrefix(users: int -> string, infos: seq<Info>, i: nat, id: int)
    requires i < |infos|
    ensures Flatten(users, infos[..i + 1], id) ==
      AppendInfo(EntryUuid(users, infos[..i + 1]), Flatten(users, infos[..i], id), infos[i], id)
  {
    hide AppendInfo; hide EntryUuid;
    assert infos[..i + 1][..i] == infos[..i];
  }

  lemma {:induction false} FlattenGrows(users: int -> string, infos: seq<Info>, i: nat, id: int)
    requires i <= |infos|
    ensures Flatten(users, infos[..i], id) <= Flatten(users, infos, id)
    decreases |infos| - i
  {
    hide EntryUuid;
    if i == |infos| {
      assert infos[..i] == infos;
    } else {
      FlattenPrefix(users, infos, i, id);
      FlattenGrows(users, infos, i + 1, id);
    }
  }

  lemma {:induction false} SampleRowAt(uuid: string, info: Info, m: nat, id: int, j: nat)
    requires j < m <= |info.samples|
    ensures SampleRows(uuid, info, m, id)[j] == RowFor(uuid, info, info.samples[j], id + j)
  {
    if j < m - 1 {
      SampleRowAt(uuid, info, m - 1, id, j);
    }
  }

  lemma AppendedRowAt(uuid: string, before: seq<Row>, info: Info, id: int, j: nat)
    requires j < |info.samples|
    ensures
      var after := AppendInfo(uuid, before, info, id);
      && |after| == |before| + |info.samples|
      && after[|before| + j] == RowFor(uuid, info, info.samples[j], id + |before| + j)
  {
    hide RowFor; hide SampleRows;
    SampleRowAt(uuid, info, |info.samples|, id + |before|, j);
  }

  lemma PrefixAt(a: seq<Row>, b: seq<Row>, k: nat)
    requires a <= b && k < |a|
    ensures k < |b| && b[k] == a[k]
  {
  }

  /** Every entry has a sample, which the loop reads without a test. */
  predicate Insertable(infos: seq<Info>) {
    forall info :: info in infos ==> |info.samples| > 0
  }

  /** The variables of the loop when it has come to `seen` entries. */
  ghost predicate Fetched(users: int -> string, infos: seq<Info>, seen: nat, oldUid: int, uuid: string) {
    && seen <= |infos|
    && if seen == 0 then oldUid == -1 && uuid == ""
       else oldUid == infos[seen - 1].uid && uuid == EntryUuid(users, infos[..seen])
  }

  lemma FetchedStarts(users: int -> string, infos: seq<Info>)
    ensures Fetched(users, infos, 0, -1, "")
  {
  }

  /** The test at the start of a turn gives the UUID of its entry, old or new. */
  lemma FetchedSteps(users: int -> string, infos: seq<Info>, i: nat, j: nat, oldUid: int, uuid: string)
    requires i < |infos| && Fetched(users, infos, if j > 0 then i + 1 else i, oldUid, uuid)
    ensures
      var newUuid := if oldUid != infos[i].uid then UuidOf(users, infos[i].uid) else uuid;
      Fetched(users, infos, i + 1, infos[i].uid, newUuid)
  {
    if j == 0 {
      assert infos[..i + 1] == infos[..i] + [infos[i]];
      if i > 0 && oldUid != infos[i].uid {
        assert infos[i - 1] in infos[..i + 1] && infos[i] in infos[..i + 1];
      }
    }
  }

  lemma FetchedIs(users: int -> string, infos: seq<Info>, i: nat, oldUid: int, uuid: string)
    requires i < |infos| && Fetched(users, infos, i + 1, oldUid, uuid)
    ensures uuid == EntryUuid(users, infos[..i + 1])
  {
  }

  /** Row `k` of the list is the one for sample `j` of entry `i`, or the end of the list. */
  ghost predicate NextRow(users: int -> string, infos: seq<Info>, id: int, i: nat, j: nat, k: nat) {
    && i <= |infos| && (if i == |infos| then j == 0 else j < |infos[i].samples|)
    && k == |Flatten(users, infos[..i], id)| + j
  }

  lemma NextRowStarts(users: int -> string, infos: seq<Info>, id: int)
    requires Insertable(infos)
    ensures NextRow(users, infos, id, 0, 0, 0)
  {
  }

  lemma NextRowSteps(users: int -> string, infos: seq<Info>, id: int, i: nat, j: nat, k: nat)
    requires NextRow(users, infos, id, i, j, k) && i < |infos|
    requires Insertable(infos)
    ensures k < |Flatten(users, infos, id)| && j < |infos[i].samples|
    ensures Flatten(users, infos, id)[k] ==
      RowFor(EntryUuid(users, infos[..i + 1]), infos[i], infos[i].samples[j], id + k)
    ensures
      if j + 1 == |infos[i].samples| then NextRow(users, infos, id, i + 1, 0, k + 1)
      else NextRow(users, infos, id, i, j + 1, k + 1)
  {
    var before := Flatten(users, infos[..i], id);
    hide Flatten; hide AppendInfo; hide EntryUuid; hide RowFor; hide Insertable;
    assert infos[i] in infos;
    FlattenPrefix(users, infos, i, id);
    FlattenGrows(users, infos, i + 1, id);
    AppendedRowAt(EntryUuid(users, infos[..i + 1]), before, infos[i], id, j);
    PrefixAt(Flatten(users, infos[..i + 1], id), Flatten(users, infos, id), k);
    if j + 1 == |infos[i].samples| {
      NextEntry(infos, i);
    }
  }

  lemma NextEntry(infos: seq<Info>, i: nat)
    requires i < |infos| && Insertable(infos)
    ensures i + 1 < |infos| ==> |infos[i + 1].samples| > 0
  {
    assert i + 1 < |infos| ==> infos[i + 1] in infos;
  }

  lemma NextRowEnds(users: int -> string, infos: seq<Info>, id: int, k: nat)
    requires NextRow(users, infos, id, |infos|, 0, k)
    ensures k == |Flatten(users, infos, id)|
  {
    assert infos[..|infos|] == infos;
  }

  // ---------- The statements on a table ----------

  function Reject(q: Range, rows: seq<Row>): (kept: seq<Row>)
    ensures forall r :: r in kept <==> r in rows && !Matches(q, r)
  {
    if |rows| == 0 then []
    else
      var rest := Reject(q, rows[..|rows| - 1]);
      if Matches(q, rows[|rows| - 1]) then rest else rest + [rows[|rows| - 1]]
  }

  /** For cleaning, an empty driver name means every driver, like NULL. */
  function CleanRange(uid: int, biotype: int, driver: Option<string>, start: int, end: int): Range {
    Range(uid, biotype, if driver == Some("") then None else driver, start, end)
  }

  datatype Update = Update(dbid: int, uid: int, biotype: int, driver: string, index: int, indexName: string,
                           sampleNo: int)

  /** The UUID and the data are not updated. */
  function UpdatedRow(u: Update, r: Row): Row {
    if r.id != u.dbid then r
    else r.(uid := u.uid, biotype := u.biotype, driver := u.driver, index := u.index,
            indexName := u.indexName, sampleNo := u.sampleNo)
  }

  function UpdatedRows(u: Update, rows: seq<Row>): (after: seq<Row>)
    ensures |after| == |rows|
  {
    seq(|rows|, i requires 0 <= i < |rows| => UpdatedRow(u, rows[i]))
  }

  /** Every row stays in its place with its id, UUID and data, and those with other ids are equal. */
  predicate OnlyRowChanges(dbid: int, before: seq<Row>, after: seq<Row>) {
    && |after| == |before|
    && forall i :: 0 <= i < |before| ==>
         && after[i].id == before[i].id && after[i].uuid == before[i].uuid && after[i].data == before[i].data
         && (before[i].id != dbid ==> after[i] == before[i])
  }

  predicate Numbered(rows: seq<Row>, nextId: int) {
    && (forall i :: 0 <= i < |rows| ==> rows[i].id < nextId)
    && (forall i, j :: 0 <= i < j < |rows| ==> rows[i].id != rows[j].id)
  }

  /** The number of steps that succeed before the first that fails. */
  function Successes(stepOk: nat -> bool, n: nat): (k: nat)
    ensures k <= n
    ensures forall i :: 0 <= i < k ==> stepOk(i)
    ensures k < n ==> !stepOk(k)
  {
    if n == 0 then 0
    else
      var k := Successes(stepOk, n - 1);
      if k < n - 1 || !stepOk(n - 1) then k else n
  }

  ghost predicate AllOk(stepOk: nat -> bool, k: nat) {
    forall i :: 0 <= i < k ==> stepOk(i)
  }

  /** After `k` successful steps the rows `written` are the first `k` rows of the list. */
  ghost predicate Written(users: int -> string, infos: seq<Info>, id: int, stepOk: nat -> bool,
                          i: nat, j: nat, k: nat, written: seq<Row>) {
    && NextRow(users, infos, id, i, j, k) && AllOk(stepOk, k)
    && k <= |Flatten(users, infos, id)| && written == Flatten(users, infos, id)[..k]
  }

  lemma WrittenSteps(users: int -> string, infos: seq<Info>, id: int, stepOk: nat -> bool,
                     i: nat, j: nat, k: nat, written: seq<Row>)
    requires Written(users, infos, id, stepOk, i, j, k, written) && i < |infos| && Insertable(infos)
    ensures j < |infos[i].samples| && k < |Flatten(users, infos, id)|
    ensures stepOk(k) ==>
      var after := written + [RowFor(EntryUuid(users, infos[..i + 1]), infos[i], infos[i].samples[j], id + k)];
      if j + 1 == |infos[i].samples| then Written(users, infos, id, stepOk, i + 1, 0, k + 1, after)
      else Written(users, infos, id, stepOk, i, j + 1, k + 1, after)
    ensures !stepOk(k) ==>
      Successes(stepOk, |Flatten(users, infos, id)|) == k && written == Flatten(users, infos, id)[..k]
  {
    hide NextRow; hide Flatten; hide RowFor; hide Insertable; hide EntryUuid;
    NextRowSteps(users, infos, id, i, j, k);
    assert Flatten(users, infos, id)[..k + 1] == Flatten(users, infos, id)[..k] + [Flatten(users, infos, id)[k]];
  }

  /** The state of the loop: the rows it wrote and the user it knows. */
  ghost predicate Turn(users: int -> string, infos: seq<Info>, id: int, stepOk: nat -> bool,
                       i: nat, j: nat, k: nat, written: seq<Row>, oldUid: int, uuid: string) {
    && Written(users, infos, id, stepOk, i, j, k, written)
    && Fetched(users, infos, if j > 0 then i + 1 else i, oldUid, uuid)
  }

  lemma TurnStarts(users: int -> string, infos: seq<Info>, id: int, stepOk: nat -> bool)
    requires Insertable(infos)
    ensures Turn(users, infos, id, stepOk, 0, 0, 0, [], -1, "")
  {
    NextRowStarts(users, infos, id);
    FetchedStarts(users, infos);
  }

  lemma TurnSteps(users: int -> string, infos: seq<Info>, id: int, stepOk: nat -> bool,
                  i: nat, j: nat, k: nat, written: seq<Row>, oldUid: int, uuid: string)
    requires Turn(users, infos, id, stepOk, i, j, k, written, oldUid, uuid) && i < |infos| && Insertable(infos)
    ensures j < |infos[i].samples| && k < |Flatten(users, infos, id)|
    ensures stepOk(k) ==>
      var uid := infos[i].uid;
      var newUuid := if oldUid != uid then UuidOf(users, uid) else uuid;
      var after := written + [RowFor(newUuid, infos[i], infos[i].samples[j], id + k)];
      if j + 1 == |infos[i].samples| then Turn(users, infos, id, stepOk, i + 1, 0, k + 1, after, uid, newUuid)
      else Turn(users, infos, id, stepOk, i, j + 1, k + 1, after, uid, newUuid)
    ensures !stepOk(k) ==>
      Successes(stepOk, |Flatten(users, infos, id)|) == k && written == Flatten(users, infos, id)[..k]
  {
    hide Written; hide Fetched; hide EntryUuid; hide Flatten; hide RowFor; hide UuidOf;
    WrittenSteps(users, infos, id, stepOk, i, j, k, written);
    FetchedSteps(users, infos, i, j, oldUid, uuid);
    FetchedIs(users, infos, i, infos[i].uid, if oldUid != infos[i].uid then UuidOf(users, infos[i].uid) else uuid);
  }

  lemma TurnEnds(users: int -> string, infos: seq<Info>, id: int, stepOk: nat -> bool,
                 i: nat, j: nat, k: nat, written: seq<Row>, oldUid: int, uuid: string)
    requires Turn(users, infos, id, stepOk, i, j, k, written, oldUid, uuid) && i == |infos|
    ensures k == |Flatten(users, infos, id)| == Successes(stepOk, k) && written == Flatten(users, infos, id)[..k]
  {
    NextRowEnds(users, infos, id, k);
  }

  // ---------- Queries after a deletion ----------

  lemma SelectAppend(q: Range, rows: seq<Row>, r: Row)
    ensures Select(q, rows + [r]) == Select(q, rows) + (if Matches(q, r) then [r] else [])
  {
    assert (rows + [r])[..|rows|] == rows;
  }

  lemma RejectAppend(q: Range, rows: seq<Row>, r: Row)
    ensures Reject(q, rows + [r]) == Reject(q, rows) + (if Matches(q, r) then [] else [r])
  {
    assert (rows + [r])[..|rows|] == rows;
  }

  /** A query after the clean sees what it saw before, without the cleaned rows. */
  lemma {:induction false} SelectAfterReject(q: Range, cleaned: Range, rows: seq<Row>)
    ensures Select(q, Reject(cleaned, rows)) == Reject(cleaned, Select(q, rows))
  {
    if |rows| > 0 {
      var n := |rows| - 1;
      hide Matches;
      SelectAfterReject(q, cleaned, rows[..n]);
      SelectAppend(q, Reject(cleaned, rows[..n]), rows[n]);
      RejectAppend(cleaned, Select(q, rows[..n]), rows[n]);
    }
  }

  lemma {:induction false} SelectAll(q: Range, rows: seq<Row>)
    requires forall r :: r in rows ==> Matches(q, r)
    ensures Select(q, rows) == rows
  {
    if |rows| > 0 {
      SelectAll(q, rows[..|rows| - 1]);
    }
  }

  lemma {:induction false} RejectNothing(q: Range, rows: seq<Row>)
    requires forall r :: r in rows ==> !Matches(q, r)
    ensures Reject(q, rows) == rows
  {
    if |rows| > 0 {
      hide Matches;
      RejectNothing(q, rows[..|rows| - 1]);
    }
  }

  lemma {:induction false} RejectEverything(q: Range, rows: seq<Row>)
    requires forall r :: r in rows ==> Matches(q, r)
    ensures Reject(q, rows) == []
  {
    if |rows| > 0 {
      hide Matches;
      RejectEverything(q, rows[..|rows| - 1]);
    }
  }

  lemma {:induction false} Partition(q: Range, rows: seq<Row>)
    ensures multiset(Reject(q, rows)) + multiset(Select(q, rows)) == multiset(rows)
  {
    if |rows| > 0 {
      hide Matches;
      Partition(q, rows[..|rows| - 1]);
      assert rows == rows[..|rows| - 1] + [rows[|rows| - 1]];
    }
  }

  lemma RejectIsExact(q: Range, rows: seq<Row>)
    ensures multiset(Reject(q, rows)) + multiset(Select(q, rows)) == multiset(rows)
    ensures Select(q, Reject(q, rows)) == []
    ensures forall p: Range :: Select(p, Reject(q, rows)) == Reject(q, Select(p, rows))
  {
    hide Matches;
    Partition(q, rows);
    SelectAfterReject(q, q, rows);
    RejectEverything(q, Select(q, rows));
    forall p: Range ensures Select(p, Reject(q, rows)) == Reject(q, Select(p, rows)) {
      SelectAfterReject(p, q, rows);
    }
  }

  /** What a clean with these arguments leaves, row by row. */
  lemma {:induction false} CleanedRow(uid: int, biotype: int, driver: Option<string>, start: int, end: int,
                                      rows: seq<Row>, r: Row)
    ensures multiset(Reject(CleanRange(uid, biotype, driver, start, end), rows))[r] ==
      if && r.index >= start && (end == -1 || r.index <= end) && (uid == -1 || r.uid == uid)
         && (biotype == -1 || r.biotype == biotype)
         && (driver == None || driver == Some("") || driver == Some(r.driver))
      then 0 else multiset(rows)[r]
  {
    if |rows| > 0 {
      CleanedRow(uid, biotype, driver, start, end, rows[..|rows| - 1], r);
      assert rows == rows[..|rows| - 1] + [rows[|rows| - 1]];
    }
  }

  // ---------- The table ----------

  class Table {
    var rows: seq<Row>
    var nextId: int

    ghost predicate Valid()
      reads this
    {
      Numbered(rows, nextId)
    }

    constructor ()
      ensures Valid() && rows == []
    {
      rows := [];
      nextId := 1;
    }

    /** bio_sto_get_feature_info: `cursor` holds the rows that SQLite delivered. The list holds
        the samples of the visible ones, each once and in order, and is their index unless a
        stale merge is due. */
    method Get(users: int -> string, q: Range, prepared: bool, cursor: seq<Row>) returns (infoList: seq<Info>)
      requires Valid() && (prepared ==> Delivers(cursor, q, rows) && Typed(cursor))
      ensures !prepared ==> infoList == []
      ensures prepared ==>
        var owners := Owners(users, cursor);
        && infoList == Run(users, cursor).list
        && AllSamples(infoList) == SamplesOf(VisibleRows(owners, cursor))
        && (NoStaleMerge(owners, cursor) ==> IsIndex(owners, cursor, infoList))
        && forall r :: r in VisibleRows(owners, cursor) ==> r in rows && Matches(q, r) && r.uuid == owners(r.uid)
    {
      hide *;
      if !prepared {
        return [];
      }
      infoList := Group(users, cursor);
      ListOfDelivered(users, q, rows, cursor);
    }

    /** The INSERT statement with its parameters bound; SQLite chooses the id. */
    method InsertRow(info: Info, uuid: string, sample: Sample)
      requires Valid()
      modifies this
      ensures Valid() && nextId == old(nextId) + 1
      ensures rows == old(rows) + [Row(old(nextId), info.uid, uuid, info.biotype, info.driver, info.index,
                                       info.indexName, sample.no, sample.data)]
    {
      var row := Row(nextId, info.uid, uuid, info.biotype, info.driver, info.index, info.indexName, sample.no,
                     sample.data);
      AddedIsNumbered(rows, nextId, row);
      rows := rows + [row];
      nextId := nextId + 1;
    }

    /** Since the table had the rows `base` and the next id `id`, the rows `written` were added. */
    ghost predicate Added(base: seq<Row>, id: int, written: seq<Row>)
      reads this
    {
      Valid() && rows == base + written && nextId == id + |written|
    }

    /** One turn of the loop of bio_sto_set_feature_info; `oldUid` and `uuid` are its variables. */
    method SetSample(users: int -> string, infoList: seq<Info>, stepOk: nat -> bool, i: nat, j: nat, step: nat,
                     oldUid: int, uuid: string, ghost base: seq<Row>, ghost id: int, ghost written: seq<Row>)
      returns (done: bool, nextI: nat, nextJ: nat, newUid: int, newUuid: string, ghost more: seq<Row>)
      requires Turn(users, infoList, id, stepOk, i, j, step, written, oldUid, uuid) && i < |infoList|
      requires Insertable(infoList) && Added(base, id, written) && |written| == step
      modifies this
      ensures done == stepOk(step) && step < |Flatten(users, infoList, id)| && nextI <= |infoList|
      ensures done ==> |more| == step + 1 && Added(base, id, more)
      ensures done ==> Turn(users, infoList, id, stepOk, nextI, nextJ, step + 1, more, newUid, newUuid)
      ensures !done ==> Added(base, id, written) && written == Flatten(users, infoList, id)[..step]
      ensures !done ==> Successes(stepOk, |Flatten(users, infoList, id)|) == step
    {
      hide *;
      TurnSteps(users, infoList, id, stepOk, i, j, step, written, oldUid, uuid);
      AddedIs(base, id, written);
      var info := infoList[i];
      newUid, newUuid, nextI, nextJ, more := oldUid, uuid, i, j, written;
      if newUid != info.uid {
        newUid := info.uid;
        newUuid := UuidOf(users, info.uid);
      }
      done := stepOk(step);
      if !done {
        return;
      }
      InsertRow(info, newUuid, info.samples[j]);
      RowForIs(newUuid, info, info.samples[j], id + step);
      more := written + [RowFor(newUuid, info, info.samples[j], id + step)];
      MoreAdded(base, id, written, RowFor(newUuid, info, info.samples[j], id + step));
      nextJ := j + 1;
      if nextJ == |info.samples| {
        nextI, nextJ := i + 1, 0;
      }
    }

    lemma MoreAdded(base: seq<Row>, id: int, written: seq<Row>, row: Row)
      requires Valid() && rows == base + written + [row] && nextId == id + |written| + 1
      ensures Added(base, id, written + [row])
    {
      assert base + written + [row] == base + (written + [row]);
    }

    /** The loop of bio_sto_set_feature_info; `k` numbers its calls of sqlite3_step. */
    method SetSamples(users: int -> string, infoList: seq<Info>, stepOk: nat -> bool) returns (ret: int, ghost k: nat)
      requires Valid() && Insertable(infoList)
      modifies this
      ensures Valid() && nextId == old(nextId) + k
      ensures k <= |Flatten(users, infoList, old(nextId))|
      ensures rows == old(rows) + Flatten(users, infoList, old(nextId))[..k]
      ensures k == Successes(stepOk, |Flatten(users, infoList, old(nextId))|)
      ensures ret == if k == |Flatten(users, infoList, old(nextId))| then 0 else -2
    {
      TurnStarts(users, infoList, nextId, stepOk);
      assert rows + [] == rows;
      ghost var base, id, total := rows, nextId, |Flatten(users, infoList, nextId)|;
      ghost var written: seq<Row> := [];
      assert Added(base, id, written);
      var step: nat, i: nat, j: nat := 0, 0, 0;
      var oldUid, uuid := -1, "";
      hide *;
      while i < |infoList|
        invariant i <= |infoList| && step == |written|
        invariant Turn(users, infoList, id, stepOk, i, j, step, written, oldUid, uuid)
        invariant Added(base, id, written)
        decreases total - step
      {
        var done;
        ghost var more;
        done, i, j, oldUid, uuid, more :=
          SetSample(users, infoList, stepOk, i, j, step, oldUid, uuid, base, id, written);
        if !done {
          AddedIs(base, id, written);
          return -2, step;
        }
        written, step := more, step + 1;
      }
      TurnEnds(users, infoList, id, stepOk, i, j, step, written, oldUid, uuid);
      AddedIs(base, id, written);
      return 0, step;
    }

    lemma AddedIs(base: seq<Row>, id: int, written: seq<Row>)
      requires Added(base, id, written)
      ensures Valid() && rows == base + written && nextId == id + |written|
    {
    }

    /** bio_sto_set_feature_info: what the statements before a failing one wrote stays. */
    method Set(users: int -> string, infoList: seq<Info>, prepared: bool, stepOk: nat -> bool) returns (ret: int)
      requires Valid() && Insertable(infoList)
      modifies this
      ensures Valid()
      ensures !prepared ==> ret == -1 && rows == old(rows)
      ensures prepared ==>
        var all := Flatten(users, infoList, old(nextId));
        var k := Successes(stepOk, |all|);
        rows == old(rows) + all[..k] && nextId == old(nextId) + k && ret == if k == |all| then 0 else -2
    {
      hide *;
      if !prepared {
        return -1;
      }
      ghost var k;
      ret, k := SetSamples(users, infoList, stepOk);
    }

    /** bio_sto_clean_feature_info: the removed rows are those of the range, none is left, and
        any query sees what it saw before without them. */
    method Clean(q: Range, prepared: bool, stepOk: bool) returns (ret: int)
      requires Valid()
      modifies this`rows
      ensures Valid()
      ensures ret == if prepared && stepOk then 0 else -2
      ensures rows == if ret == 0 then Reject(q, old(rows)) else old(rows)
      ensures ret == 0 ==> multiset(rows) + multiset(Select(q, old(rows))) == multiset(old(rows))
      ensures ret == 0 ==> Select(q, rows) == []
      ensures ret == 0 ==> forall p: Range :: Select(p, rows) == Reject(q, Select(p, old(rows)))
    {
      hide Reject; hide Select; hide Numbered;
      if !prepared || !stepOk {
        return -2;
      }
      RejectIsNumbered(q, rows, nextId);
      RejectIsExact(q, rows);
      rows := Reject(q, rows);
      return 0;
    }

    /** bio_sto_update_feature_info_by_dbid: at most the row with the id changes, and keeps its
        id, UUID and data. */
    method UpdateById(u: Update, prepared: bool, stepOk: bool) returns (ret: int)
      requires Valid()
      modifies this`rows
      ensures Valid()
      ensures ret == if prepared && stepOk then 0 else -2
      ensures rows == if ret == 0 then UpdatedRows(u, old(rows)) else old(rows)
      ensures OnlyRowChanges(u.dbid, old(rows), rows)
      ensures ret == 0 ==> forall r :: r in rows && r.id == u.dbid ==>
        && r.uid == u.uid && r.biotype == u.biotype && r.driver == u.driver
        && r.index == u.index && r.indexName == u.indexName && r.sampleNo == u.sampleNo
    {
      if !prepared || !stepOk {
        return -2;
      }
      rows := UpdatedRows(u, rows);
      return 0;
    }
  }

  lemma ListOfDelivered(users: int -> string, q: Range, rows: seq<Row>, cursor: seq<Row>)
    requires Delivers(cursor, q, rows) && Typed(cursor)
    ensures
      var owners := Owners(users, cursor);
      && AllSamples(Run(users, cursor).list) == SamplesOf(VisibleRows(owners, cursor))
      && (NoStaleMerge(owners, cursor) ==> IsIndex(owners, cursor, Run(users, cursor).list))
      && forall r :: r in VisibleRows(owners, cursor) ==> r in rows && Matches(q, r) && r.uuid == owners(r.uid)
  {
    var owners := Owners(users, cursor);
    assert OwnersOf(users, owners, cursor);
    assert forall r :: Visible(owners, r) <==> r.uuid == owners(r.uid);
    hide *;
    DeliveredContain(cursor, q, rows);
    PassConserves(users, owners, cursor);
    ListedIsIndex(owners, cursor);
    PassIsExact(users, cursor);
  }

  lemma RowForIs(uuid: string, info: Info, sample: Sample, id: int)
    ensures RowFor(uuid, info, sample, id) ==
      Row(id, info.uid, uuid, info.biotype, info.driver, info.index, info.indexName, sample.no, sample.data)
  {
  }

  lemma {:induction false} RejectIsNumbered(q: Range, rows: seq<Row>, nextId: int)
    requires Numbered(rows, nextId)
    ensures Numbered(Reject(q, rows), nextId)
  {
    if |rows| > 0 {
      var n := |rows| - 1;
      RejectIsNumbered(q, rows[..n], nextId);
      var kept := Reject(q, rows[..n]);
      forall i | 0 <= i < |kept| ensures kept[i].id != rows[n].id && kept[i].id < nextId {
        assert kept[i] in rows[..n];
      }
    }
  }

  lemma AddedIsNumbered(rows: seq<Row>, nextId: int, row: Row)
    requires Numbered(rows, nextId) && row.id == nextId
    ensures Numbered(rows + [row], nextId + 1)
  {
  }
}
