/** Automatic index assignment stays free of collisions in every run: the lock of a driver
    spans the choice of an index and the insertion under it. */
module DaemonIndices {
  import opened FeatureRows
  import opened FeatureGrouping
  import opened FeatureStore
  import opened IndexAllocator
  import opened FeatureRename
  import opened Daemon

  /** No two visible rows belong to the same feature. */
  predicate CollisionFree(c: Config, rows: seq<Row>) {
    forall i, j :: 0 <= i < j < |rows| && Visible(StoredUuids(c), rows[i]) && Visible(StoredUuids(c), rows[j]) ==>
      KeyOf(rows[i]) != KeyOf(rows[j])
  }

  predicate DistinctNames(c: Config) {
    forall d, e :: d in c.drivers && e in c.drivers && d != e ==> c.name(d) != c.name(e)
  }

  /** The choice of a handler does not lead to a used index. A list for the uid -1 that begins with
      lower uids shows no row under an empty UUID, so that nothing in it tells what is used. */
  ghost predicate ChoosesWell(c: Config, rows: seq<Row>, th: Thread, delivered: seq<Row>)
    requires Typed(delivered)
  {
    var biotype, name, list := c.biotype(th.driver), c.name(th.driver), Run(c.users, delivered).list;
    if th.uid == -1 && !NobodyFirst(delivered) then
      !Used(StoredUuids(c), rows, -1, biotype, name, EmptyIndex(list, 0, -1))
    else
      forall free :: IsLeastUnused(StoredUuids(c), rows, th.uid, biotype, name, 0, free) ==>
        !TakesUsed(th.uid, list, free)
  }

  /** Every user has a UUID, as internal_get_uuid_by_uid provides, be it the default one. */
  ghost predicate AllHaveUuids(c: Config) {
    forall u :: c.users(u) != ""
  }

  /** Enrolments ask for an automatic index and choose well; renames for the uid -1 need UUIDs. */
  ghost predicate Proper(c: Config, s: State, e: Event) {
    match e
    case Arrive(_, op, _, uid) => (op.Enroll? ==> op.idx == -1) && (op.Rename? && uid == -1 ==> AllHaveUuids(c))
    case Allocate(t, delivered) =>
      t in s.threads && Typed(delivered) ==> ChoosesWell(c, s.rows, s.threads[t], delivered)
    case _ => true
  }

  // ---------- The invariant ----------

  /** An enrolment that has its index and has not used it yet. */
  predicate WillInsert(th: Thread) {
    th.op.Enroll? && (th.pc == READY || th.pc == RUNNING) && !th.stored
  }

  predicate KeyFree(c: Config, rows: seq<Row>, key: Key) {
    forall r :: r in rows && Visible(StoredUuids(c), r) ==> KeyOf(r) != key
  }

  /** A row with the id of a sample that a rename has read: it is that sample of the feature. A
      rename for the uid -1 can also have read samples of others, but only under a UUID that is
      not empty, so that no move to the uid -1 makes them visible. */
  predicate PendingRow(key: Key, p: Sample, r: Row) {
    r.driver == key.driver && ((KeyOf(r) == key && r.sampleNo == p.no) || (key.uid == -1 && r.uuid != ""))
  }

  predicate PendingIntact(rows: seq<Row>, nextId: int, key: Key, pending: set<Sample>) {
    && (forall p :: p in pending ==> p.dbid < nextId)
    && (forall r, p :: r in rows && p in pending && r.id == p.dbid ==> PendingRow(key, p, r))
  }

  ghost predicate ThreadOk(c: Config, rows: seq<Row>, nextId: int, th: Thread) {
    && th.driver in c.drivers
    && (th.op.Enroll? ==> th.op.idx == -1)
    && (th.op.Rename? && th.uid == -1 ==> AllHaveUuids(c))
    && (th.pc == LOCKED ==> th.op.Enroll?)
    && (th.pc == ARRIVED || th.pc == LOCKED ==> !th.stored)
    && (WillInsert(th) ==> KeyFree(c, rows, ThreadKey(c, th)))
    && (th.op.Rename? && th.pc == RUNNING ==> PendingIntact(rows, nextId, ThreadKey(c, th), th.pending))
  }

  ghost predicate Inv(c: Config, s: State) {
    && LocksHeld(s)
    && Numbered(s.rows, s.nextId)
    && CollisionFree(c, s.rows)
    && forall t :: t in s.threads ==> ThreadOk(c, s.rows, s.nextId, s.threads[t])
  }

  lemma InitialInv(c: Config, s: State)
    requires Initial(c, s) && CollisionFree(c, s.rows)
    ensures Inv(c, s)
  {
  }

  // ---------- What the changes of the table keep ----------

  lemma {:induction false} RejectCollisionFree(c: Config, q: Range, rows: seq<Row>)
    requires CollisionFree(c, rows)
    ensures CollisionFree(c, Reject(q, rows))
  {
    if |rows| > 0 {
      var n := |rows| - 1;
      hide Matches; hide Visible; hide KeyOf;
      RejectCollisionFree(c, q, rows[..n]);
      var kept := Reject(q, rows[..n]);
      forall i | 0 <= i < |kept| && Visible(StoredUuids(c), kept[i]) && Visible(StoredUuids(c), rows[n])
        ensures KeyOf(kept[i]) != KeyOf(rows[n])
      {
        assert kept[i] in rows[..n];
      }
    }
  }

  lemma RejectKeepsThread(c: Config, q: Range, rows: seq<Row>, nextId: int, th: Thread)
    requires ThreadOk(c, rows, nextId, th)
    ensures ThreadOk(c, Reject(q, rows), nextId, th)
  {
    hide Matches; hide Visible; hide KeyOf; hide ThreadKey;
  }

  lemma InsertCollisionFree(c: Config, rows: seq<Row>, row: Row)
    requires CollisionFree(c, rows) && KeyFree(c, rows, KeyOf(row))
    ensures CollisionFree(c, rows + [row])
  {
    hide Visible; hide KeyOf;
  }

  /** The insertion of a handler does not disturb the others: their drivers have other names. */
  lemma InsertKeepsThread(c: Config, rows: seq<Row>, nextId: int, row: Row, th: Thread)
    requires ThreadOk(c, rows, nextId, th) && row.id == nextId
    requires WillInsert(th) ==> KeyOf(row) != ThreadKey(c, th)
    ensures ThreadOk(c, rows + [row], nextId + 1, th)
  {
    hide Visible; hide KeyOf; hide ThreadKey;
  }

  lemma OtherDriverOtherKey(c: Config, th: Thread, other: Thread)
    requires DistinctNames(c) && th.driver in c.drivers && other.driver in c.drivers && th.driver != other.driver
    ensures ThreadKey(c, th) != ThreadKey(c, other)
  {
  }

  /** An update of a rename keeps everything about a row but its name, or moves a row that is not
      visible there to the uid -1. */
  predicate SameBut(r: Row, s: Row) {
    r == s.(indexName := r.indexName)
  }

  predicate Kept(r: Row, s: Row) {
    r.id == s.id && r.uuid == s.uuid && (SameBut(r, s) || (r.uid == -1 && r.uuid != ""))
  }

  predicate Renamed(before: seq<Row>, after: seq<Row>) {
    |before| == |after| && forall i :: 0 <= i < |before| ==> Kept(after[i], before[i])
  }

  lemma UpdateKeepsFeatures(c: Config, rows: seq<Row>, nextId: int, th: Thread, sample: Sample)
    requires th.op.Rename? && sample in th.pending
    requires PendingIntact(rows, nextId, ThreadKey(c, th), th.pending)
    ensures Renamed(rows, UpdatedRows(RenameUpdate(c, th, sample), rows))
  {
    var after := UpdatedRows(RenameUpdate(c, th, sample), rows);
    forall i | 0 <= i < |rows| ensures Kept(after[i], rows[i]) {
      assert rows[i] in rows;
    }
  }

  lemma KeptVisible(c: Config, r: Row, s: Row)
    requires Kept(r, s) && Visible(StoredUuids(c), r)
    ensures Visible(StoredUuids(c), s) && KeyOf(r) == KeyOf(s)
  {
  }

  lemma RenamedKeepsTable(c: Config, before: seq<Row>, after: seq<Row>, nextId: int)
    requires Renamed(before, after) && Numbered(before, nextId) && CollisionFree(c, before)
    ensures Numbered(after, nextId) && CollisionFree(c, after)
  {
    forall i | 0 <= i < |after|
      ensures after[i].id == before[i].id
      ensures Visible(StoredUuids(c), after[i]) ==>
        Visible(StoredUuids(c), before[i]) && KeyOf(after[i]) == KeyOf(before[i])
    {
      assert Kept(after[i], before[i]);
      if Visible(StoredUuids(c), after[i]) {
        KeptVisible(c, after[i], before[i]);
      }
    }
    hide Visible; hide KeyOf; hide Renamed;
  }

  lemma RenamedKeepsFree(c: Config, before: seq<Row>, after: seq<Row>, key: Key)
    requires Renamed(before, after) && KeyFree(c, before, key)
    ensures KeyFree(c, after, key)
  {
    forall r | r in after && Visible(StoredUuids(c), r) ensures KeyOf(r) != key {
      var i :| 0 <= i < |after| && after[i] == r;
      KeptVisible(c, after[i], before[i]);
      assert before[i] in before;
    }
  }

  /** The samples that are read stay intact when one of them is updated, or one of another driver. */
  lemma UpdateKeepsPending(c: Config, rows: seq<Row>, nextId: int, th: Thread, sample: Sample, other: Thread)
    requires th.op.Rename? && sample in th.pending
    requires PendingIntact(rows, nextId, ThreadKey(c, th), th.pending)
    requires PendingIntact(rows, nextId, ThreadKey(c, other), other.pending)
    requires other == th || ThreadKey(c, other).driver != ThreadKey(c, th).driver
    ensures PendingIntact(UpdatedRows(RenameUpdate(c, th, sample), rows), nextId, ThreadKey(c, other), other.pending)
  {
    var u, key := RenameUpdate(c, th, sample), ThreadKey(c, other);
    var after := UpdatedRows(u, rows);
    forall r, p | r in after && p in other.pending && r.id == p.dbid ensures PendingRow(key, p, r) {
      var i :| 0 <= i < |after| && after[i] == r;
      assert rows[i] in rows && r == UpdatedRow(u, rows[i]);
      assert PendingRow(key, p, rows[i]);
      assert rows[i].id == sample.dbid ==> PendingRow(ThreadKey(c, th), sample, rows[i]);
    }
  }

  lemma RenamedKeepsThread(c: Config, rows: seq<Row>, nextId: int, th: Thread, sample: Sample, other: Thread)
    requires th.op.Rename? && th.pc == RUNNING && sample in th.pending
    requires ThreadOk(c, rows, nextId, th) && ThreadOk(c, rows, nextId, other)
    requires other == th || !Holds(other) || ThreadKey(c, other).driver != ThreadKey(c, th).driver
    ensures ThreadOk(c, UpdatedRows(RenameUpdate(c, th, sample), rows), nextId, other)
  {
    hide ThreadKey; hide KeyFree; hide PendingIntact; hide UpdatedRows; hide RenameUpdate; hide AllHaveUuids;
    UpdateKeepsFeatures(c, rows, nextId, th, sample);
    if WillInsert(other) {
      RenamedKeepsFree(c, rows, UpdatedRows(RenameUpdate(c, th, sample), rows), ThreadKey(c, other));
    }
    if other.op.Rename? && other.pc == RUNNING {
      UpdateKeepsPending(c, rows, nextId, th, sample, other);
    }
  }

  // ---------- Every event keeps the invariant ----------

  lemma InsertStep(c: Config, s: State, e: Event)
    requires Inv(c, s) && DistinctNames(c) && Enabled(c, s, e) && e.Template? && e.ok
    ensures Inv(c, Next(c, s, e))
  {
    var th, after := s.threads[e.t], Next(c, s, e);
    var row := NewRow(c, s, th, e.indexName, e.sampleNo, e.data);
    assert ThreadOk(c, s.rows, s.nextId, th) && WillInsert(th);
    assert KeyOf(row) == ThreadKey(c, th);
    AddedIsNumbered(s.rows, s.nextId, row);
    InsertCollisionFree(c, s.rows, row);
    LocksStayHeld(c, s, e);
    forall t | t in after.threads ensures ThreadOk(c, after.rows, after.nextId, after.threads[t]) {
      var other := after.threads[t];
      assert ThreadOk(c, s.rows, s.nextId, s.threads[t]);
      if t != e.t && WillInsert(other) {
        OtherDriverOtherKey(c, th, other);
      }
      assert ThreadOk(c, s.rows, s.nextId, other);
      InsertKeepsThread(c, s.rows, s.nextId, row, other);
    }
  }

  lemma DeleteStep(c: Config, s: State, e: Event)
    requires Inv(c, s) && Enabled(c, s, e) && e.DeleteRows? && e.ok
    ensures Inv(c, Next(c, s, e))
  {
    var after := Next(c, s, e);
    var q := CleanedRange(c, s.threads[e.t]);
    RejectIsNumbered(q, s.rows, s.nextId);
    RejectCollisionFree(c, q, s.rows);
    LocksStayHeld(c, s, e);
    forall t | t in after.threads ensures ThreadOk(c, after.rows, after.nextId, after.threads[t]) {
      RejectKeepsThread(c, q, s.rows, s.nextId, s.threads[t]);
    }
  }

  /** Two handlers that hold locks have drivers with different names. */
  lemma HoldersDiffer(c: Config, s: State, t: int, other: int)
    requires Inv(c, s) && DistinctNames(c) && t in s.threads && other in s.threads && t != other
    requires Holds(s.threads[t]) && Holds(s.threads[other])
    ensures ThreadKey(c, s.threads[t]).driver != ThreadKey(c, s.threads[other]).driver
  {
    assert ThreadOk(c, s.rows, s.nextId, s.threads[t]) && ThreadOk(c, s.rows, s.nextId, s.threads[other]);
  }

  lemma RenameStep(c: Config, s: State, e: Event)
    requires Inv(c, s) && DistinctNames(c) && Enabled(c, s, e) && e.UpdateName? && e.ok
    ensures Inv(c, Next(c, s, e))
  {
    var th, after := s.threads[e.t], Next(c, s, e);
    assert ThreadOk(c, s.rows, s.nextId, th);
    UpdateKeepsFeatures(c, s.rows, s.nextId, th, e.sample);
    RenamedKeepsTable(c, s.rows, after.rows, s.nextId);
    LocksStayHeld(c, s, e);
    assert after.rows == UpdatedRows(RenameUpdate(c, th, e.sample), s.rows) && after.nextId == s.nextId;
    assert after.threads == s.threads && Holds(th) && th.pc == RUNNING && th.op.Rename? && e.sample in th.pending;
    hide Next; hide Enabled; hide ThreadOk; hide UpdatedRows; hide RenameUpdate; hide CollisionFree; hide Numbered;
    hide ThreadKey; hide Renamed; hide PendingIntact; hide LocksHeld; hide DistinctNames;
    forall t | t in after.threads ensures ThreadOk(c, after.rows, after.nextId, after.threads[t]) {
      if t != e.t && Holds(s.threads[t]) {
        HoldersDiffer(c, s, t, e.t);
      }
      RenamedKeepsThread(c, s.rows, s.nextId, th, e.sample, s.threads[t]);
    }
  }

  /** The events that leave the table as it is. */
  predicate Quiet(e: Event) {
    !(e.Template? && e.ok) && !(e.DeleteRows? && e.ok) && !(e.UpdateName? && e.ok)
  }

  lemma SamplesIntact(rows: seq<Row>, nextId: int, key: Key, samples: set<Sample>)
    requires Numbered(rows, nextId)
    requires forall p :: p in samples ==> exists r :: r in rows && PendingRow(key, p, r) && SampleOf(r) == p
    ensures PendingIntact(rows, nextId, key, samples)
  {
    hide PendingRow;
    forall r, p | r in rows && p in samples && r.id == p.dbid ensures PendingRow(key, p, r) {
      var q :| q in rows && PendingRow(key, p, q) && SampleOf(q) == p;
      var i :| 0 <= i < |rows| && rows[i] == r;
      var j :| 0 <= j < |rows| && rows[j] == q;
    }
  }

  /** What a rename for one user reads are samples of the feature. */
  lemma OneUserReads(users: int -> string, rows: seq<Row>, key: Key, delivered: seq<Row>, p: Sample)
    requires key.uid != -1 && key.biotype >= 0 && DistinctIds(rows)
    requires Delivers(delivered, FeatureRange(key), rows) && Typed(delivered)
    requires p in SamplesToRename(Run(users, delivered).list, key)
    ensures exists r :: r in rows && PendingRow(key, p, r) && SampleOf(r) == p
  {
    var owners, list := Owners(users, delivered), Run(users, delivered).list;
    var shown := RowsWithKey(owners, delivered, key);
    OneUser(rows, delivered, FeatureRange(key), key.uid, key.biotype);
    OneUserIndex(users, delivered, key.uid);
    RenameList(owners, rows, key, delivered, list);
    ShownAreTargets(owners, rows, delivered, key);
    hide Delivers; hide Run; hide RowsWithKey; hide Typed; hide TargetIds; hide IsIndex; hide Owners; hide Sorted;
    ReadAreListed(list, key, p);
    var i :| 0 <= i < |list| && Renames(list[i], key) && p in list[i].samples;
    var k :| 0 <= k < |shown| && SamplesOf(shown)[k] == p;
    assert shown[k] in shown;
  }

  /** A visible row of the query of a rename for the uid -1, if its UUID is not empty. */
  lemma OthersRead(rows: seq<Row>, key: Key, delivered: seq<Row>, r: Row)
    requires key.uid == -1 && Delivers(delivered, FeatureRange(key), rows) && r in delivered && r.uuid != ""
    ensures r in rows && PendingRow(key, SampleOf(r), r)
  {
    DeliveredContain(delivered, FeatureRange(key), rows);
  }

  /** A rename for the uid -1 whose query does not begin with it compares no row with an empty
      UUID. */
  lemma StrangersRead(users: int -> string, rows: seq<Row>, key: Key, delivered: seq<Row>, p: Sample)
    requires key.uid == -1 && (forall u :: users(u) != "") && Owners(users, delivered) == users
    requires Delivers(delivered, FeatureRange(key), rows) && Typed(delivered)
    requires p in SamplesToRename(Run(users, delivered).list, key)
    ensures exists r :: r in rows && PendingRow(key, p, r) && SampleOf(r) == p
  {
    var list := Run(users, delivered).list;
    ReadAreListed(list, key, p);
    var i :| 0 <= i < |list| && Renames(list[i], key) && p in list[i].samples;
    DeliveredContain(delivered, FeatureRange(key), rows);
    hide Run; hide Delivers; hide Sorted; hide Typed; hide Owners; hide PendingRow;
    var r := ListedIsVisible(users, delivered, i, p);
    assert r.uuid == users(r.uid);
    OthersRead(rows, key, delivered, r);
  }

  lemma OwnRead(owners: int -> string, rows: seq<Row>, key: Key, delivered: seq<Row>, n: nat, own: seq<Info>, k: nat,
                p: Sample)
    requires key.uid == -1 && key.biotype >= 0 && Delivers(delivered, FeatureRange(key), rows) && n <= |delivered|
    requires IsIndex(owners, delivered[..n], own) && k < |own| && Renames(own[k], key) && p in own[k].samples
    ensures exists r :: r in rows && PendingRow(key, p, r) && SampleOf(r) == p
  {
    var shown := RowsWithKey(owners, delivered[..n], InfoKey(own[k]));
    DeliveredContain(delivered, FeatureRange(key), rows);
    assert IsEntry(own[k], shown);
    hide RowsWithKey; hide IsIndex; hide Delivers; hide Sorted; hide Visible;
    var j :| 0 <= j < |shown| && SamplesOf(shown)[j] == p;
    var r := shown[j];
    RowsWithKeyMember(owners, delivered[..n], InfoKey(own[k]), r);
    assert r in delivered && KeyOf(r) == InfoKey(own[k]);
  }

  /** One whose query begins with it reads its own samples, and perhaps some of users behind it. */
  lemma NobodyReads(users: int -> string, rows: seq<Row>, key: Key, delivered: seq<Row>, p: Sample)
    requires key.uid == -1 && key.biotype >= 0 && (forall u :: users(u) != "")
    requires Delivers(delivered, FeatureRange(key), rows) && Typed(delivered)
    requires NobodyFirst(delivered)
    requires p in SamplesToRename(Run(users, delivered).list, key)
    ensures exists r :: r in rows && PendingRow(key, p, r) && SampleOf(r) == p
  {
    var list, owners := Run(users, delivered).list, Owners(users, delivered);
    ReadAreListed(list, key, p);
    var k: nat :| k < |list| && list[k].uid == key.uid && list[k].index == key.index && p in list[k].samples;
    DeliveredContain(delivered, FeatureRange(key), rows);
    hide SamplesToRename; hide SamplesRead; hide Run; hide Delivers; hide Sorted; hide Typed; hide PendingRow;
    hide IsIndex; hide OwnEntries;
    var n := NobodysRows(delivered);
    TypedPrefix(delivered, n);
    NobodysEntries(users, delivered, n);
    var own := Run(users, delivered[..n]).list;
    OthersUids(own, list, owners, delivered[n..]);
    assert k < |own|;
    ExtendsLength(own, list, owners, delivered[n..]);
    if p in own[k].samples {
      assert InfoKey(list[k]) == InfoKey(own[k]);
      OwnRead(Owners(users, delivered[..n]), rows, key, delivered, n, own, k, p);
    } else {
      assert SampleOfVisible(owners, delivered[n..], p);
      var r :| r in delivered[n..] && Visible(owners, r) && SampleOf(r) == p;
      OwnerOfUser(users, delivered, r.uid);
      OthersRead(rows, key, delivered, r);
    }
  }

  lemma ReadIntact(c: Config, rows: seq<Row>, nextId: int, th: Thread, delivered: seq<Row>)
    requires Numbered(rows, nextId) && (th.uid == -1 ==> AllHaveUuids(c))
    requires Delivers(delivered, NameRange(c, th), rows) && Typed(delivered)
    ensures PendingIntact(rows, nextId, ThreadKey(c, th),
                          SamplesToRename(Run(c.users, delivered).list, ThreadKey(c, th)))
  {
    var key, list := ThreadKey(c, th), Run(c.users, delivered).list;
    assert DistinctIds(rows) && key.biotype >= 0 && key.uid == th.uid && NameRange(c, th) == FeatureRange(key);
    DeliveredContain(delivered, NameRange(c, th), rows);
    hide Delivers; hide Run; hide Typed; hide ThreadKey; hide NameRange; hide PendingRow; hide SamplesToRename;
    hide PendingIntact; hide Matches; hide Numbered; hide DistinctIds; hide RowLeq;
    forall p | p in SamplesToRename(list, key)
      ensures exists r :: r in rows && PendingRow(key, p, r) && SampleOf(r) == p
    {
      if key.uid != -1 {
        OneUserReads(c.users, rows, key, delivered, p);
      } else if delivered == [] || delivered[0].uid != -1 {
        StrangersRead(c.users, rows, key, delivered, p);
      } else {
        FirstIsLeast(delivered);
        NobodyReads(c.users, rows, key, delivered, p);
      }
    }
    SamplesIntact(rows, nextId, key, SamplesToRename(list, key));
  }

  lemma UnusedIsFree(c: Config, rows: seq<Row>, key: Key)
    requires !Used(StoredUuids(c), rows, key.uid, key.biotype, key.driver, key.index)
    ensures KeyFree(c, rows, key)
  {
  }

  /** Whole lists choose well, except for the uid -1. */
  lemma WholeChoosesWell(c: Config, rows: seq<Row>, th: Thread, delivered: seq<Row>)
    requires th.uid != -1 && Answers(delivered, ChoiceRange(c, th), rows) && Typed(delivered)
    ensures ChoosesWell(c, rows, th, delivered)
  {
    var list := Run(c.users, delivered).list;
    var biotype, name := c.biotype(th.driver), c.name(th.driver);
    hide Answers; hide Run; hide Typed; hide Used;
    QueryShowsUsed(c.users, rows, delivered, th.uid, biotype, name, 0, -1);
    forall i ensures Used(StoredUuids(c), rows, th.uid, biotype, name, i) <==>
      Used(c.users, rows, th.uid, biotype, name, i)
    {
      UsedByStored(c.users, rows, th.uid, biotype, name, i);
    }
    forall free | IsLeastUnused(StoredUuids(c), rows, th.uid, biotype, name, 0, free) ensures |list| >= free {
      UsedIsListed(c.users, rows, list, th.uid, biotype, name, free);
      RunUpToFree(list, free);
    }
  }

  lemma ThreadsAfter(c: Config, s: State, e: Event)
    requires Enabled(c, s, e)
    ensures e.t in Next(c, s, e).threads
    ensures forall t :: t in Next(c, s, e).threads <==> t == e.t || t in s.threads
  {
    hide Next; hide Enabled;
    OnlyOwnThread(c, s, e);
  }

  lemma QuietTable(c: Config, s: State, e: Event)
    requires Enabled(c, s, e) && Quiet(e)
    ensures Next(c, s, e).rows == s.rows && Next(c, s, e).nextId == s.nextId
  {
  }

  lemma AllocateNext(c: Config, s: State, e: Event)
    requires Enabled(c, s, e) && e.Allocate? && Typed(e.delivered)
    ensures
      var th := s.threads[e.t];
      && th.pc == LOCKED && Delivers(e.delivered, ChoiceRange(c, th), s.rows)
      && e.t in Next(c, s, e).threads
      && Next(c, s, e).threads[e.t] ==
           th.(pc := READY, index := EmptyIndex(Run(c.users, e.delivered).list, 0, -1))
  {
  }

  lemma AllocateOwn(c: Config, s: State, e: Event)
    requires Enabled(c, s, e) && Proper(c, s, e) && e.Allocate?
    requires ThreadOk(c, s.rows, s.nextId, s.threads[e.t])
    ensures ThreadOk(c, s.rows, s.nextId, Next(c, s, e).threads[e.t])
  {
    var th, after := s.threads[e.t], Next(c, s, e).threads[e.t];
    var biotype, name := c.biotype(th.driver), c.name(th.driver);
    DeliveredTyped(c, e.delivered, ChoiceRange(c, th), s.rows, th.driver);
    assert ChoosesWell(c, s.rows, th, e.delivered);
    AllocateNext(c, s, e);
    hide Next; hide Enabled; hide Run; hide Delivers; hide Typed; hide EmptyIndex; hide IsLeastUnused; hide KeyFree;
    hide Used; hide TakesUsed;
    if th.uid != -1 || NobodyFirst(e.delivered) {
      var free := LeastUnusedExists(StoredUuids(c), s.rows, th.uid, biotype, name);
      ChoiceTaken(c.users, s.rows, e.delivered, th.uid, biotype, name, free);
    }
    UnusedIsFree(c, s.rows, ThreadKey(c, after));
  }

  lemma ReadNamesOwn(c: Config, s: State, e: Event)
    requires Enabled(c, s, e) && e.ReadNames? && Numbered(s.rows, s.nextId)
    requires ThreadOk(c, s.rows, s.nextId, s.threads[e.t])
    ensures ThreadOk(c, s.rows, s.nextId, Next(c, s, e).threads[e.t])
  {
    var th := s.threads[e.t];
    DeliveredTyped(c, e.delivered, NameRange(c, th), s.rows, th.driver);
    ReadIntact(c, s.rows, s.nextId, th, e.delivered);
  }

  /** The other events change what the handler does next, but not what it is about to insert. */
  lemma PlainOwn(c: Config, s: State, e: Event)
    requires Enabled(c, s, e) && Proper(c, s, e) && Quiet(e) && !e.Allocate? && !e.ReadNames? && !e.Arrive?
    requires ThreadOk(c, s.rows, s.nextId, s.threads[e.t])
    ensures ThreadOk(c, s.rows, s.nextId, Next(c, s, e).threads[e.t])
  {
    OnlyOwnThread(c, s, e);
    ThreadIdentity(c, s, e);
    PendingStays(c, s, e);
    PlainOwnPc(c, s, e);
    PlainOwnInserts(c, s, e);
    hide Enabled; hide Next; hide KeyFree; hide PendingIntact;
  }

  lemma PendingStays(c: Config, s: State, e: Event)
    requires Enabled(c, s, e) && !e.ReadNames? && !e.Arrive?
    ensures Next(c, s, e).threads[e.t].pending == s.threads[e.t].pending
  {
  }

  lemma PlainOwnPc(c: Config, s: State, e: Event)
    requires Enabled(c, s, e) && !e.Allocate? && !e.ReadNames? && !e.Arrive?
    ensures
      var before, after := s.threads[e.t], Next(c, s, e).threads[e.t];
      && (after.pc == LOCKED ==> after.op.Enroll?)
      && (after.op.Rename? && after.pc == RUNNING ==> before.pc == RUNNING)
      && (after.pc == ARRIVED || after.pc == LOCKED ==> before.pc == ARRIVED && after.stored == before.stored)
  {
  }

  lemma PlainOwnInserts(c: Config, s: State, e: Event)
    requires Enabled(c, s, e) && !e.Allocate? && !e.ReadNames? && !e.Arrive?
    ensures
      var before, after := s.threads[e.t], Next(c, s, e).threads[e.t];
      WillInsert(after) ==> (WillInsert(before) && after.index == before.index) || (e.TryLock? && before.op.idx != -1)
  {
  }

  /** What an event does to its own handler. */
  lemma OwnThread(c: Config, s: State, e: Event)
    requires Inv(c, s) && Enabled(c, s, e) && Proper(c, s, e) && Quiet(e)
    ensures e.t in Next(c, s, e).threads && (e.t in s.threads || e.Arrive?)
    ensures ThreadOk(c, s.rows, s.nextId, Next(c, s, e).threads[e.t])
  {
    ThreadsAfter(c, s, e);
    if e.Arrive? {
    } else {
      assert ThreadOk(c, s.rows, s.nextId, s.threads[e.t]);
      hide Enabled; hide Next; hide ThreadOk; hide CollisionFree; hide Quiet; hide Proper; hide Numbered;
      if e.Allocate? {
        AllocateOwn(c, s, e);
      } else if e.ReadNames? {
        ReadNamesOwn(c, s, e);
      } else {
        PlainOwn(c, s, e);
      }
    }
  }

  lemma QuietStep(c: Config, s: State, e: Event)
    requires Inv(c, s) && Enabled(c, s, e) && Proper(c, s, e) && Quiet(e)
    ensures Inv(c, Next(c, s, e))
  {
    var after := Next(c, s, e);
    ThreadsAfter(c, s, e);
    QuietTable(c, s, e);
    LocksStayHeld(c, s, e);
    OwnThread(c, s, e);
    hide Enabled; hide Next; hide ThreadOk; hide Numbered; hide CollisionFree; hide Quiet; hide Proper; hide LocksHeld;
    forall t | t in after.threads ensures ThreadOk(c, after.rows, after.nextId, after.threads[t]) {
      if t != e.t {
        OthersUnchanged(c, s, e, t);
      }
    }
  }

  lemma StepKeepsInv(c: Config, s: State, e: Event)
    requires Inv(c, s) && DistinctNames(c) && Enabled(c, s, e) && Proper(c, s, e)
    ensures Inv(c, Next(c, s, e))
  {
    hide Inv; hide Enabled; hide Next;
    if e.Template? && e.ok {
      InsertStep(c, s, e);
    } else if e.DeleteRows? && e.ok {
      DeleteStep(c, s, e);
    } else if e.UpdateName? && e.ok {
      RenameStep(c, s, e);
    } else {
      QuietStep(c, s, e);
    }
  }

  /** In every run of automatic enrolments that choose well, renames and cleans, from a table without
      collisions, no two visible rows ever share their user, type, driver and index. */
  lemma {:induction false} NoCollisions(c: Config, init: State, events: seq<Event>, states: seq<State>)
    requires IsRun(c, init, events, states) && Initial(c, init) && CollisionFree(c, init.rows)
    requires DistinctNames(c) && forall i :: 0 <= i < |events| ==> Proper(c, states[i], events[i])
    ensures forall i :: 0 <= i < |states| ==> Inv(c, states[i]) && CollisionFree(c, states[i].rows)
  {
    hide Next; hide Enabled; hide CollisionFree; hide ThreadOk; hide Initial; hide Proper;
    assert Inv(c, init) by { InitialInv(c, init); }
    var n := 0;
    while n < |events|
      invariant 0 <= n <= |events|
      invariant forall i :: 0 <= i <= n ==> Inv(c, states[i])
    {
      StepKeepsInv(c, states[n], events[n]);
      n := n + 1;
    }
  }

  // ---------- The choice of the index decides ----------

  /** An enrolment that holds its lock, chooses an index from what its query delivers and stores
      its template: the table is free of collisions afterwards if and only if the list for the
      choice does not lead to a used index. For the uid -1 it must not begin with lower ones. */
  lemma ChoiceDecides(c: Config, s: State, t: int, delivered: seq<Row>, free: int, indexName: string, sampleNo: int,
                      data: seq<bv8>)
    requires CollisionFree(c, s.rows) && At(s, t, LOCKED) && s.threads[t].op.Enroll? && !s.threads[t].stored
    requires c.enabled(s.threads[t].driver) && Enabled(c, s, Allocate(t, delivered)) && Typed(delivered)
    requires s.threads[t].uid == -1 ==> NobodyFirst(delivered)
    requires
      var th := s.threads[t];
      IsLeastUnused(StoredUuids(c), s.rows, th.uid, c.biotype(th.driver), c.name(th.driver), 0, free)
    ensures
      var s1 := Next(c, s, Allocate(t, delivered));
      Enabled(c, s1, Open(t, true)) &&
      var s2 := Next(c, s1, Open(t, true));
      var e := Template(t, indexName, sampleNo, data, true);
      Enabled(c, s2, e) &&
      (CollisionFree(c, Next(c, s2, e).rows) <==> !TakesUsed(s.threads[t].uid, Run(c.users, delivered).list, free))
  {
    var th := s.threads[t];
    var index := EmptyIndex(Run(c.users, delivered).list, 0, -1);
    var row := TemplateStored(c, s, t, delivered, indexName, sampleNo, data);
    AllocateNext(c, s, Allocate(t, delivered));
    StoredIs(c);
    hide *;
    ChoiceTaken(c.users, s.rows, delivered, th.uid, c.biotype(th.driver), c.name(th.driver), free);
    ChoiceCollides(c, s.rows, row, th.uid, c.biotype(th.driver), c.name(th.driver), index);
  }

  lemma StoredIs(c: Config)
    ensures StoredUuids(c) == WithNobody(c.users)
  {
  }

  /** A query of which nothing is delivered lets an enrolment collide with the index 0. */
  lemma CutShortCollides(c: Config, s: State, t: int, free: int, indexName: string, sampleNo: int, data: seq<bv8>)
    requires CollisionFree(c, s.rows) && At(s, t, LOCKED) && s.threads[t].op.Enroll? && !s.threads[t].stored
    requires c.enabled(s.threads[t].driver) && free > 0
    requires
      var th := s.threads[t];
      IsLeastUnused(StoredUuids(c), s.rows, th.uid, c.biotype(th.driver), c.name(th.driver), 0, free)
    ensures Enabled(c, s, Allocate(t, []))
    ensures
      var s1 := Next(c, s, Allocate(t, []));
      Enabled(c, s1, Open(t, true)) &&
      var s2 := Next(c, s1, Open(t, true));
      var e := Template(t, indexName, sampleNo, data, true);
      Enabled(c, s2, e) && !CollisionFree(c, Next(c, s2, e).rows)
  {
    EveryQueryIsAnswered(ChoiceRange(c, s.threads[t]), s.rows);
    assert Delivers([], ChoiceRange(c, s.threads[t]), s.rows);
    assert Enabled(c, s, Allocate(t, [])) && Typed([]) && Run(c.users, []).list == [];
    assert TakesUsed(s.threads[t].uid, [], free);
    hide *;
    ChoiceDecides(c, s, t, [], free, indexName, sampleNo, data);
  }

  /** The three steps from the choice to the new row. */
  lemma TemplateStored(c: Config, s: State, t: int, delivered: seq<Row>, indexName: string, sampleNo: int,
                       data: seq<bv8>)
    returns (row: Row)
    requires At(s, t, LOCKED) && s.threads[t].op.Enroll? && !s.threads[t].stored && c.enabled(s.threads[t].driver)
    requires Enabled(c, s, Allocate(t, delivered)) && Typed(delivered)
    ensures
      var s1 := Next(c, s, Allocate(t, delivered));
      Enabled(c, s1, Open(t, true)) &&
      var s2 := Next(c, s1, Open(t, true));
      var e := Template(t, indexName, sampleNo, data, true);
      Enabled(c, s2, e) && Next(c, s2, e).rows == s.rows + [row]
    ensures
      var th := s.threads[t];
      Visible(StoredUuids(c), row) &&
      KeyOf(row) ==
        Key(th.uid, c.biotype(th.driver), c.name(th.driver), EmptyIndex(Run(c.users, delivered).list, 0, -1))
  {
    hide EmptyIndex; hide Run; hide Delivers; hide Typed;
    AllocateNext(c, s, Allocate(t, delivered));
    var s1 := Next(c, s, Allocate(t, delivered));
    var s2 := Next(c, s1, Open(t, true));
    var th := s2.threads[t];
    assert th == s1.threads[t].(pc := RUNNING, openedAt := s1.clock + 1, found := None);
    row := NewRow(c, s2, th, indexName, sampleNo, data);
  }

  lemma ChoiceCollides(c: Config, rows: seq<Row>, row: Row, uid: int, biotype: int, driver: string, index: int)
    requires CollisionFree(c, rows) && Visible(StoredUuids(c), row) && KeyOf(row) == Key(uid, biotype, driver, index)
    ensures CollisionFree(c, rows + [row]) <==> !Used(StoredUuids(c), rows, uid, biotype, driver, index)
  {
    if Used(StoredUuids(c), rows, uid, biotype, driver, index) {
      var r :| r in rows && Visible(StoredUuids(c), r) && KeyOf(r) == Key(uid, biotype, driver, index);
      var i :| 0 <= i < |rows| && rows[i] == r;
      var all := rows + [row];
      assert all[i] == r && all[|rows|] == row;
    } else {
      InsertCollisionFree(c, rows, row);
    }
  }
}
