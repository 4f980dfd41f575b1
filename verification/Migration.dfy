/** The check of the database format and the upgrade of the oldest format, as a sequence of
    SQL statements each of which can fail, inside a transaction whose start can fail too. */
module Migration {
  import opened FeatureRows
  import opened FeatureGrouping

  /** A row whose UUID may be NULL; in the oldest format there is no UUID. */
  datatype Entry = Entry(row: Row, hasUuid: bool)

  datatype Format = Format(major: int, minor: int, func: int)

  const CURRENT := Format(1, 1, 0)
  const OLDEST := Format(0, 0, 0)

  /** EIGEN_INFO, EIGEN_INFO_VERSION_0_0_0 and the table of formats. */
  datatype Tables = Tables(eigen: Option<seq<Entry>>, backup: Option<seq<Entry>>, format: Option<seq<Format>>)

  // ---------- What the statements do ----------

  function WithUuid(users: int -> string, uid: int, e: Entry): Entry {
    if e.row.uid == uid then Entry(e.row.(uuid := users(uid)), true) else e
  }

  function SetUuid(users: int -> string, uid: int, entries: seq<Entry>): (after: seq<Entry>)
    ensures |after| == |entries|
  {
    seq(|entries|, i requires 0 <= i < |entries| => WithUuid(users, uid, entries[i]))
  }

  function SetUuids(users: int -> string, uids: seq<int>, entries: seq<Entry>): (after: seq<Entry>)
    ensures |after| == |entries|
  {
    if |uids| == 0 then entries
    else SetUuid(users, uids[|uids| - 1], SetUuids(users, uids[..|uids| - 1], entries))
  }

  /** A copy for which no UUID was given has NULL. */
  function Copied(e: Entry): Entry {
    Entry(e.row.(uuid := ""), false)
  }

  function CopiedAll(entries: seq<Entry>): (after: seq<Entry>)
    ensures |after| == |entries|
  {
    seq(|entries|, i requires 0 <= i < |entries| => Copied(entries[i]))
  }

  function FormatRows(t: Tables): seq<Format> {
    match t.format case None => [] case Some(rows) => rows
  }

  /** How the calls of an upgrade go. `delivered` are the uids that the SELECT yields before
      it ends or fails; `updates` are the outcomes of the UPDATE statements. */
  datatype Faults = Faults(begin: bool, rename: bool, create: bool, copy: bool, prepare: bool,
                           delivered: seq<int>, updates: nat -> bool,
                           createFormat: bool, prepareInsert: bool, insertFormat: bool, commit: bool)

  // ---------- The upgrade ----------

  class Database {
    var now: Tables
    /** What a rollback goes back to, while a transaction is open. */
    var saved: Option<Tables>

    /** What is left when the connection is closed. */
    ghost function Durable(): Tables
      reads this
    {
      match saved case None => now case Some(t) => t
    }

    constructor (t: Tables)
      ensures now == t && saved == None
    {
      now, saved := t, None;
    }

    method Begin(ok: bool)
      modifies this
      ensures now == old(now) && saved == if ok then Some(now) else old(saved)
    {
      if ok {
        saved := Some(now);
      }
    }

    method Rollback()
      modifies this
      ensures saved == None && now == old(Durable())
    {
      if saved.Some? {
        now := saved.value;
      }
      saved := None;
    }

    method Commit(ok: bool)
      modifies this
      ensures now == old(now) && saved == if ok then None else old(saved)
    {
      if ok {
        saved := None;
      }
    }

    method RenameTable(ok: bool) returns (done: bool)
      modifies this`now
      ensures done == (ok && old(now).eigen.Some? && old(now).backup.None?)
      ensures now == if done then old(now).(eigen := None, backup := old(now).eigen) else old(now)
    {
      done := ok && now.eigen.Some? && now.backup.None?;
      if done {
        now := now.(eigen := None, backup := now.eigen);
      }
    }

    method CreateEigenTable(ok: bool) returns (done: bool)
      modifies this`now
      ensures done == ok
      ensures now == if ok && old(now).eigen.None? then old(now).(eigen := Some([])) else old(now)
    {
      done := ok;
      if ok && now.eigen.None? {
        now := now.(eigen := Some([]));
      }
    }

    method CopyRows(ok: bool) returns (done: bool)
      requires now.eigen.Some? && now.backup.Some?
      modifies this`now
      ensures done == ok
      ensures now ==
        if ok then old(now).(eigen := Some(old(now).eigen.value + CopiedAll(old(now).backup.value))) else old(now)
    {
      done := ok;
      if ok {
        now := now.(eigen := Some(now.eigen.value + CopiedAll(now.backup.value)));
      }
    }

    method UpdateUuid(users: int -> string, uid: int, ok: bool) returns (done: bool)
      requires now.eigen.Some?
      modifies this`now
      ensures done == ok
      ensures now == if ok then old(now).(eigen := Some(SetUuid(users, uid, old(now).eigen.value))) else old(now)
    {
      done := ok;
      if ok {
        now := now.(eigen := Some(SetUuid(users, uid, now.eigen.value)));
      }
    }

    /** internal_create_datebase_info */
    method CreateFormat(create: bool, prepareInsert: bool, insertOk: bool) returns (done: bool)
      modifies this`now
      ensures done == (create && prepareInsert && insertOk)
      ensures now ==
        if !create then old(now)
        else old(now).(format := Some(FormatRows(old(now)) + if done then [Format(1, 1, 0)] else []))
    {
      if !create {
        return false;
      }
      now := now.(format := Some(FormatRows(now)));
      assert FormatRows(now) + [] == FormatRows(now);
      if !prepareInsert || !insertOk {
        return false;
      }
      now := now.(format := Some(FormatRows(now) + [CURRENT]));
      return true;
    }

    /** internal_upgrade_db_format_from_null */
    method Upgrade(users: int -> string, f: Faults) returns (ret: int)
      requires saved == None
      modifies this
      ensures ret == 0 || ret == -1
      ensures ret == 0 <==>
        old(now).eigen.Some? && old(now).backup.None? && f.rename && f.create && f.copy && f.prepare &&
        (forall i :: 0 <= i < |f.delivered| ==> f.updates(i)) && f.createFormat && f.prepareInsert && f.insertFormat
      ensures Durable() == Final(users, old(now), f)
      ensures saved == None <==> ret == -1 || !f.begin || f.commit
    {
      ghost var t := now;
      FailsNowhere(t, f);
      Begin(f.begin);
      var done := RenameTable(f.rename);
      if !done {
        Rollback();
        return -1;
      }
      done := CreateEigenTable(f.create);
      if !done {
        Rollback();
        return -1;
      }
      done := CopyRows(f.copy);
      if !done {
        Rollback();
        return -1;
      }
      ghost var entries := now.eigen.value;
      assert entries == CopiedAll(t.eigen.value);
      if !f.prepare {
        Rollback();
        return -1;
      }
      for k := 0 to |f.delivered|
        invariant now == t.(eigen := Some(SetUuids(users, f.delivered[..k], entries)), backup := t.eigen)
        invariant saved == if f.begin then Some(t) else None
        invariant forall i :: 0 <= i < k ==> f.updates(i)
      {
        assert f.delivered[..k + 1][..k] == f.delivered[..k];
        done := UpdateUuid(users, f.delivered[k], f.updates(k));
        if !done {
          UpdatesFailAt(f, k);
          Rollback();
          return -1;
        }
      }
      assert f.delivered[..|f.delivered|] == f.delivered;
      UpdatesFailAt(f, |f.delivered|);
      assert FormatRows(t) + [] == FormatRows(t);
      done := CreateFormat(f.createFormat, f.prepareInsert, f.insertFormat);
      if !done {
        Rollback();
        return -1;
      }
      Commit(f.commit);
      return 0;
    }
  }

  // ---------- The outcome ----------

  datatype Stage = AT_RENAME | AT_CREATE | AT_COPY | AT_PREPARE | AT_UPDATE | AT_FORMAT | NOWHERE

  function GoodUpdates(f: Faults, n: nat): (k: nat)
    requires n <= |f.delivered|
    ensures k <= n
  {
    if n == 0 then 0
    else
      var k := GoodUpdates(f, n - 1);
      if k == n - 1 && f.updates(n - 1) then n else k
  }

  lemma UpdatesFailAt(f: Faults, k: nat)
    requires k <= |f.delivered| && (forall i :: 0 <= i < k ==> f.updates(i)) && (k < |f.delivered| ==> !f.updates(k))
    ensures GoodUpdates(f, |f.delivered|) == k
  {
    UpdatesFailBy(f, k, |f.delivered|);
  }

  lemma {:induction false} UpdatesFailBy(f: Faults, k: nat, n: nat)
    requires k <= n <= |f.delivered| && (forall i :: 0 <= i < k ==> f.updates(i)) && (k < n ==> !f.updates(k))
    ensures GoodUpdates(f, n) == k
  {
    if n > k {
      UpdatesFailBy(f, k, n - 1);
    } else if n > 0 {
      UpdatesFailBy(f, k - 1, n - 1);
    }
  }

  function FailsAt(t: Tables, f: Faults): Stage {
    if !(f.rename && t.eigen.Some? && t.backup.None?) then AT_RENAME
    else if !f.create then AT_CREATE
    else if !f.copy then AT_COPY
    else if !f.prepare then AT_PREPARE
    else if GoodUpdates(f, |f.delivered|) < |f.delivered| then AT_UPDATE
    else if !(f.createFormat && f.prepareInsert && f.insertFormat) then AT_FORMAT
    else NOWHERE
  }

  lemma FailsNowhere(t: Tables, f: Faults)
    ensures FailsAt(t, f) == NOWHERE <==>
      t.eigen.Some? && t.backup.None? && f.rename && f.create && f.copy && f.prepare &&
      (forall i :: 0 <= i < |f.delivered| ==> f.updates(i)) && f.createFormat && f.prepareInsert && f.insertFormat
  {
    GoodUpdatesAre(f, |f.delivered|);
  }

  lemma {:induction false} GoodUpdatesAre(f: Faults, n: nat)
    requires n <= |f.delivered|
    ensures GoodUpdates(f, n) == n <==> forall i :: 0 <= i < n ==> f.updates(i)
  {
    if n > 0 {
      GoodUpdatesAre(f, n - 1);
    }
  }

  /** The tables when the upgrade has run up to a stage. */
  function Partly(users: int -> string, t: Tables, f: Faults): Tables {
    match FailsAt(t, f)
    case AT_RENAME => t
    case AT_CREATE => t.(eigen := None, backup := t.eigen)
    case AT_COPY => t.(eigen := Some([]), backup := t.eigen)
    case AT_PREPARE => t.(eigen := Some(CopiedAll(t.eigen.value)), backup := t.eigen)
    case _ =>
      var uids := f.delivered[..GoodUpdates(f, |f.delivered|)];
      var moved := t.(eigen := Some(SetUuids(users, uids, CopiedAll(t.eigen.value))), backup := t.eigen);
      if FailsAt(t, f) == AT_UPDATE || !f.createFormat then moved
      else moved.(format := Some(FormatRows(t) + if f.prepareInsert && f.insertFormat then [CURRENT] else []))
  }

  function Final(users: int -> string, t: Tables, f: Faults): Tables {
    if f.begin && (FailsAt(t, f) != NOWHERE || !f.commit) then t else Partly(users, t, f)
  }

  // ---------- All or nothing ----------

  function Migrated(users: int -> string, e: Entry): Entry {
    Entry(e.row.(uuid := users(e.row.uid)), true)
  }

  function MigratedAll(users: int -> string, entries: seq<Entry>): (after: seq<Entry>)
    ensures |after| == |entries|
  {
    seq(|entries|, i requires 0 <= i < |entries| => Migrated(users, entries[i]))
  }

  /** Every old row once, in place and with its user's UUID; the old table is kept. */
  function Upgraded(users: int -> string, t: Tables): Tables
    requires t.eigen.Some?
  {
    Tables(Some(MigratedAll(users, t.eigen.value)), t.eigen, Some(FormatRows(t) + [CURRENT]))
  }

  /** The SELECT yielded every user before it ended. */
  predicate Covers(uids: seq<int>, entries: seq<Entry>) {
    forall e :: e in entries ==> e.row.uid in uids
  }

  lemma {:induction false} SetUuidsAt(users: int -> string, uids: seq<int>, entries: seq<Entry>, i: nat)
    requires i < |entries| && (entries[i].hasUuid ==> entries[i].row.uuid == users(entries[i].row.uid))
    ensures SetUuids(users, uids, entries)[i] ==
      if entries[i].row.uid in uids then Migrated(users, entries[i]) else entries[i]
  {
    if |uids| > 0 {
      var n := |uids| - 1;
      SetUuidsAt(users, uids[..n], entries, i);
      assert uids == uids[..n] + [uids[n]];
    }
  }

  /** The copies have all UUIDs exactly when every user was delivered. */
  lemma CopiesComplete(users: int -> string, uids: seq<int>, entries: seq<Entry>)
    ensures SetUuids(users, uids, CopiedAll(entries)) == MigratedAll(users, entries) <==> Covers(uids, entries)
  {
    var copies, after := CopiedAll(entries), SetUuids(users, uids, CopiedAll(entries));
    forall i: nat | i < |entries|
      ensures after[i] == if entries[i].row.uid in uids then Migrated(users, entries[i]) else Copied(entries[i])
    {
      SetUuidsAt(users, uids, copies, i);
    }
    if after == MigratedAll(users, entries) {
      forall e | e in entries ensures e.row.uid in uids {
        var i :| 0 <= i < |entries| && entries[i] == e;
        assert after[i].hasUuid;
      }
    }
  }

  /** The upgrade leaves the old or the upgraded tables behind, and nothing in between, exactly
      in these cases: a statement failed inside the transaction, or the first one outside of
      it; or the commit failed; or all statements succeeded and the SELECT was not cut short.
      The code tests neither the start of the transaction nor how the SELECT ends. */
  lemma AllOrNothing(users: int -> string, t: Tables, f: Faults)
    requires t.eigen.Some? && t.backup.None?
    ensures
      var allGood := f.rename && f.create && f.copy && f.prepare &&
                     (forall i :: 0 <= i < |f.delivered| ==> f.updates(i)) &&
                     f.createFormat && f.prepareInsert && f.insertFormat;
      (Final(users, t, f) == t || Final(users, t, f) == Upgraded(users, t) <==>
         if !allGood then f.begin || !f.rename else (f.begin && !f.commit) || Covers(f.delivered, t.eigen.value))
  {
    FailsNowhere(t, f);
    if FailsAt(t, f) == NOWHERE {
      assert f.delivered[..|f.delivered|] == f.delivered;
      CopiesComplete(users, f.delivered, t.eigen.value);
    } else {
      assert FormatRows(t) != FormatRows(t) + [CURRENT];
      assert FormatRows(t) + [] == FormatRows(t);
    }
  }

  /** Without a fault every old row is migrated and the result is a success; the result is a
      success too when the commit fails and the old tables stay. */
  lemma SuccessfulUpgrade(users: int -> string, t: Tables, f: Faults)
    requires t.eigen.Some? && t.backup.None?
    requires f.begin && f.rename && f.create && f.copy && f.prepare && f.createFormat && f.prepareInsert
    requires f.insertFormat && (forall i :: 0 <= i < |f.delivered| ==> f.updates(i))
    requires forall e :: e in t.eigen.value ==> e.row.uid in f.delivered
    ensures Final(users, t, f) == if f.commit then Upgraded(users, t) else t
    ensures
      var after, rows := Upgraded(users, t), t.eigen.value;
      && after.backup == t.eigen && after.format == Some(FormatRows(t) + [Format(1, 1, 0)])
      && after.eigen.Some? && |after.eigen.value| == |rows|
      && forall i :: 0 <= i < |rows| ==>
           after.eigen.value[i] == Entry(rows[i].row.(uuid := users(rows[i].row.uid)), true)
  {
    FailsNowhere(t, f);
    AllOrNothing(users, t, f);
    CopiesComplete(users, f.delivered, t.eigen.value);
    assert f.delivered[..|f.delivered|] == f.delivered;
  }

  /** The UPDATE for this user was reached and succeeded. */
  predicate UpdatedFor(f: Faults, uid: int) {
    exists k :: 0 <= k < |f.delivered| && f.delivered[k] == uid && forall j :: 0 <= j <= k ==> f.updates(j)
  }

  lemma {:induction false} GoodUpdatesSucceed(f: Faults, n: nat)
    requires n <= |f.delivered|
    ensures forall i :: 0 <= i < GoodUpdates(f, n) ==> f.updates(i)
    ensures GoodUpdates(f, n) < n ==> !f.updates(GoodUpdates(f, n))
  {
    if n > 0 {
      GoodUpdatesSucceed(f, n - 1);
    }
  }

  lemma UpdatedAre(f: Faults, uid: int)
    ensures uid in f.delivered[..GoodUpdates(f, |f.delivered|)] <==> UpdatedFor(f, uid)
  {
    var n := GoodUpdates(f, |f.delivered|);
    GoodUpdatesSucceed(f, |f.delivered|);
    if uid in f.delivered[..n] {
      var k :| 0 <= k < n && f.delivered[..n][k] == uid;
      assert f.delivered[k] == uid;
    }
    if k :| 0 <= k < |f.delivered| && f.delivered[k] == uid && forall j :: 0 <= j <= k ==> f.updates(j) {
      assert f.delivered[..n][k] == uid;
    }
  }

  /** What an upgrade without a transaction leaves behind, whichever statements fail: the old table under
      its new name, its rows as far as they were copied, a UUID for those whose UPDATE was reached, and
      the format last. */
  lemma LeftBehind(users: int -> string, t: Tables, f: Faults)
    requires t.eigen.Some? && t.backup.None? && !f.begin
    ensures
      var after, rows := Final(users, t, f), t.eigen.value;
      var copied := f.create && f.copy;
      var updated := copied && f.prepare && forall i :: 0 <= i < |f.delivered| ==> f.updates(i);
      if !f.rename then after == t
      else
        && after.backup == t.eigen && (after.eigen.Some? <==> f.create)
        && (f.create ==> |after.eigen.value| == if copied then |rows| else 0)
        && (copied ==> forall i :: 0 <= i < |rows| ==>
              after.eigen.value[i] ==
                if f.prepare && UpdatedFor(f, rows[i].row.uid) then
                  Entry(rows[i].row.(uuid := users(rows[i].row.uid)), true)
                else Entry(rows[i].row.(uuid := ""), false))
        && after.format ==
             (if !updated || !f.createFormat then t.format
              else Some(FormatRows(t) + if f.prepareInsert && f.insertFormat then [Format(1, 1, 0)] else []))
  {
    GoodUpdatesAre(f, |f.delivered|);
    var uids, copies := f.delivered[..GoodUpdates(f, |f.delivered|)], CopiedAll(t.eigen.value);
    forall i: nat | i < |copies|
      ensures SetUuids(users, uids, copies)[i] ==
        if UpdatedFor(f, copies[i].row.uid) then Migrated(users, copies[i]) else copies[i]
    {
      SetUuidsAt(users, uids, copies, i);
      UpdatedAre(f, copies[i].row.uid);
    }
    hide SetUuids; hide UpdatedFor;
  }

  /** A SELECT that stops after the first of two users: the upgrade succeeds and is committed,
      and the row of the second user has no UUID, which a query that reaches it copies without a
      test. */
  lemma CutShortLosesUser(users: int -> string, r: Row, s: Row)
    requires r.uid != s.uid
    ensures
      var t := Tables(Some([Entry(r, false), Entry(s, false)]), None, None);
      var f := Faults(true, true, true, true, true, [r.uid], _ => true, true, true, true, true);
      FailsAt(t, f) == NOWHERE && Final(users, t, f) != Upgraded(users, t) && Final(users, t, f) != t
  {
    var t := Tables(Some([Entry(r, false), Entry(s, false)]), None, None);
    var f := Faults(true, true, true, true, true, [r.uid], _ => true, true, true, true, true);
    assert GoodUpdates(f, 1) == 1 by {
      assert GoodUpdates(f, 0) == 0;
    }
    assert t.eigen.value[1] == Entry(s, false);
    assert !Covers(f.delivered, t.eigen.value);
    assert FailsAt(t, f) == NOWHERE;
    FailsNowhere(t, f);
    AllOrNothing(users, t, f);
  }

  function RowsOf(entries: seq<Entry>): (rows: seq<Row>)
    ensures |rows| == |entries|
  {
    seq(|entries|, i requires 0 <= i < |entries| => entries[i].row)
  }

  /** The rows of the upgraded table. */
  function UpgradedRows(users: int -> string, t: Tables): seq<Row>
    requires t.eigen.Some?
  {
    RowsOf(Upgraded(users, t).eigen.value)
  }

  lemma MigratedIsQueried(users: int -> string, t: Tables, cursor: seq<Row>, e: Entry)
    requires t.eigen.Some? && e in t.eigen.value && e.row.index >= 0
    requires Answers(cursor, EVERYTHING, UpgradedRows(users, t))
    ensures Sorted(cursor) && Migrated(users, e).row in cursor
  {
    var rows := UpgradedRows(users, t);
    var i :| 0 <= i < |t.eigen.value| && t.eigen.value[i] == e;
    assert rows[i] == Migrated(users, e).row;
    AnswersContain(cursor, EVERYTHING, rows);
  }

  /** A row of a lower uid than -1 that the query for everything selects. */
  predicate LowerUid(entries: seq<Entry>) {
    exists f :: f in entries && f.row.index >= 0 && f.row.uid < -1
  }

  /** After the upgrade the query for everything lists a migrated sample of an index of at least 0,
      and in the entry of its own feature unless a stale merge is due. One exception: the pass
      compares the uid -1 with an empty UUID when it comes first, and the migrated rows of this
      uid have the UUID of its user. */
  lemma MigratedIsShown(users: int -> string, t: Tables, cursor: seq<Row>, e: Entry)
    requires t.eigen.Some? && e in t.eigen.value && e.row.index >= 0
    requires forall f :: f in t.eigen.value && f.row.id == e.row.id ==> f == e
    requires Answers(cursor, EVERYTHING, UpgradedRows(users, t)) && Typed(cursor)
    ensures
      var list, m := Run(users, cursor).list, Migrated(users, e).row;
      var shown := exists i :: 0 <= i < |list| && SampleOf(m) in list[i].samples;
      && m == e.row.(uuid := users(e.row.uid))
      && (shown <==> e.row.uid != -1 || users(-1) == "" || LowerUid(t.eigen.value))
      && (shown && NoStaleMerge(Owners(users, cursor), cursor) ==>
            exists i :: 0 <= i < |list| && InfoKey(list[i]) == KeyOf(m) && SampleOf(m) in list[i].samples)
  {
    var m, list := Migrated(users, e).row, Run(users, cursor).list;
    MigratedIsQueried(users, t, cursor, e);
    MigratedIsVisible(users, t, cursor, e);
    hide *;
    if Visible(Owners(users, cursor), m) {
      VisibleIsListed(users, cursor, m);
    } else if i: nat :| i < |list| && SampleOf(m) in list[i].samples {
      var r := ListedIsVisible(users, cursor, i, SampleOf(m));
      SampleTellsId(r, m, e, users);
      MigratedBySample(users, t, cursor, e, r);
      assert false;
    }
  }

  lemma SampleTellsId(r: Row, m: Row, e: Entry, users: int -> string)
    requires SampleOf(r) == SampleOf(m) && m == Migrated(users, e).row
    ensures r.id == e.row.id
  {
  }

  /** Whether the pass compares a migrated row with the UUID that it has. */
  lemma MigratedIsVisible(users: int -> string, t: Tables, cursor: seq<Row>, e: Entry)
    requires t.eigen.Some? && e in t.eigen.value && e.row.index >= 0
    requires Answers(cursor, EVERYTHING, UpgradedRows(users, t)) && Migrated(users, e).row in cursor
    ensures Visible(Owners(users, cursor), Migrated(users, e).row) <==>
      e.row.uid != -1 || users(-1) == "" || LowerUid(t.eigen.value)
  {
    var rows, m := UpgradedRows(users, t), Migrated(users, e).row;
    AnswersContain(cursor, EVERYTHING, rows);
    FirstIsLeast(cursor);
    if cursor[0].uid < -1 {
      assert cursor[0] in cursor;
      var j :| 0 <= j < |rows| && rows[j] == cursor[0];
      assert rows[j].uid == t.eigen.value[j].row.uid && rows[j].index == t.eigen.value[j].row.index;
      assert t.eigen.value[j] in t.eigen.value;
    }
    if f :| f in t.eigen.value && f.row.index >= 0 && f.row.uid < -1 {
      MigratedIsQueried(users, t, cursor, f);
    }
  }

  lemma MigratedBySample(users: int -> string, t: Tables, cursor: seq<Row>, e: Entry, r: Row)
    requires t.eigen.Some? && forall f :: f in t.eigen.value && f.row.id == e.row.id ==> f == e
    requires Answers(cursor, EVERYTHING, UpgradedRows(users, t)) && r in cursor && r.id == e.row.id
    ensures r == Migrated(users, e).row
  {
    var rows := UpgradedRows(users, t);
    AnswersContain(cursor, EVERYTHING, rows);
    var k :| 0 <= k < |rows| && rows[k] == r;
    assert r == Migrated(users, t.eigen.value[k]).row;
  }

  // ---------- The check ----------

  /** Whether the statements that read the format succeed, and whether they yield a row. */
  datatype Reading = Reading(find: bool, prepare: bool, step: bool)

  /** bio_sto_check_and_upgrade_db_format */
  method CheckFormat(db: Database, users: int -> string, r: Reading, f: Faults) returns (ret: int)
    requires db.saved == None
    modifies db
    ensures
      var t := old(db.now);
      var v := if t.format.Some? && t.format.value != [] && r.step then t.format.value[0] else Format(0, 0, 0);
      if !r.find || (t.format.Some? && !r.prepare) then ret == -1 && db.Durable() == t
      else if v == Format(0, 0, 0) then
        (ret == 0 || ret == -2) && db.Durable() == Final(users, t, f) &&
        (ret == 0 <==>
           t.eigen.Some? && t.backup.None? && f.rename && f.create && f.copy && f.prepare &&
           (forall i :: 0 <= i < |f.delivered| ==> f.updates(i)) && f.createFormat && f.prepareInsert && f.insertFormat)
      else
        ret == (if v.major == 1 && v.minor == 1 && v.func >= 0 then 0 else -1) && db.Durable() == t
    ensures old(db.now).format == Some([Format(1, 1, 0)]) && r.find && r.prepare && r.step ==> ret == 0
  {
    if !r.find {
      return -1;
    }
    var v := OLDEST;
    if db.now.format.Some? {
      if !r.prepare {
        return -1;
      }
      if db.now.format.value != [] && r.step {
        v := db.now.format.value[0];
      }
    }
    if v.major == 0 && v.minor == 0 && v.func == 0 {
      ret := db.Upgrade(users, f);
      return if ret < 0 then -2 else 0;
    }
    if v.major == 1 && v.minor == 1 && v.func >= 0 {
      return 0;
    }
    return -1;
  }

  /** On upgraded tables another check changes nothing, whatever fails: even when it misreads the
      format, the upgrade stops because the old table exists. A check that reads their format accepts
      it. */
  lemma SecondCheck(users: int -> string, t: Tables, f: Faults)
    requires t.eigen.Some? && FormatRows(t) == []
    ensures FailsAt(Upgraded(users, t), f) == AT_RENAME
    ensures Final(users, Upgraded(users, t), f) == Upgraded(users, t)
    ensures Upgraded(users, t).format == Some([Format(1, 1, 0)])
  {
    assert [] + [CURRENT] == [Format(1, 1, 0)];
  }
}
