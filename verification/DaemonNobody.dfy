/** Automatic enrolments for the uid -1, for which a query drops the restriction to one user: a
    run in which two of them come to share an index although every list was whole. */
module DaemonNobody {
  import opened FeatureRows
  import opened FeatureGrouping
  import opened FeatureStore
  import opened IndexAllocator
  import opened Daemon
  import opened DaemonIndices

  /** Every enrolment asks for an automatic index, and the list for it is whole. */
  ghost predicate Whole(c: Config, s: State, e: Event) {
    match e
    case Arrive(_, op, _, _) => op == Enroll(-1)
    case Allocate(t, delivered) => t in s.threads && Answers(delivered, ChoiceRange(c, s.threads[t]), s.rows)
    case _ => true
  }

  ghost predicate IsWholeRun(c: Config, init: State, events: seq<Event>, states: seq<State>) {
    && IsRun(c, init, events, states)
    && forall i :: 0 <= i < |events| ==> Whole(c, states[i], events[i])
  }

  lemma WholeRunExtends(c: Config, init: State, events: seq<Event>, states: seq<State>, e: Event)
    requires IsWholeRun(c, init, events, states) && Enabled(c, states[|events|], e) && Whole(c, states[|events|], e)
    ensures IsWholeRun(c, init, events + [e], states + [Next(c, states[|events|], e)])
  {
    hide Enabled; hide Next; hide Whole;
    RunExtends(c, init, events, states, e);
  }

  // ---------- One enrolment ----------

  lemma ArriveAndLock(c: Config, s: State, t: int, uid: int, d: int)
    requires Ready(c, s, d) && t !in s.threads
    ensures
      var arrive, lock := Arrive(t, Enroll(-1), d, uid), TryLock(t);
      Enabled(c, s, arrive) &&
      var s1 := Next(c, s, arrive);
      Enabled(c, s1, lock) &&
      var s2 := Next(c, s1, lock);
      && s2.threads == s.threads[t := Thread(Enroll(-1), d, uid, LOCKED, -1, false, {}, 0, 0, None)]
      && s2.rows == s.rows && s2.nextId == s.nextId && s2.locks == s.locks[d := t] && d in s2.devices
  {
    var s1 := Next(c, s, Arrive(t, Enroll(-1), d, uid));
    assert s1.threads[t] == Thread(Enroll(-1), d, uid, ARRIVED, -1, false, {}, 0, 0, None);
  }

  /** A handler that waits for its index, as it is after its lock. */
  predicate Waits(s: State, t: int, uid: int, d: int) {
    At(s, t, LOCKED) && s.threads[t].op == Enroll(-1) && s.threads[t].driver == d && s.threads[t].uid == uid &&
    !s.threads[t].stored
  }

  lemma ChooseAndStore(c: Config, s: State, t: int, uid: int, d: int, delivered: seq<Row>)
    requires Waits(s, t, uid, d) && c.enabled(d) && Typed(delivered)
    requires Answers(delivered, AllocatorRange(uid, c.biotype(d), c.name(d), 0, -1), s.rows)
    ensures
      var allocate := Allocate(t, delivered);
      Enabled(c, s, allocate) && Whole(c, s, allocate) &&
      var s1 := Next(c, s, allocate);
      Enabled(c, s1, Open(t, true)) &&
      var s2 := Next(c, s1, Open(t, true));
      var template := Template(t, "", 0, [], true);
      Enabled(c, s2, template) &&
      var s3 := Next(c, s2, template);
      && At(s3, t, RUNNING) && s3.threads.Keys == s.threads.Keys && s3.locks == s.locks && d in s3.devices
      && s3.threads[t].driver == d && !s3.threads[t].op.Rename?
      && s3.rows == s.rows + [EnrolledRow(c, s.nextId, uid, d, EmptyIndex(Run(c.users, delivered).list, 0, -1))]
      && s3.nextId == s.nextId + 1
  {
    hide EmptyIndex; hide Run; hide Typed; hide Answers;
    AnswersAreDelivered(delivered, AllocatorRange(uid, c.biotype(d), c.name(d), 0, -1), s.rows);
    hide Delivers;
    AllocateNext(c, s, Allocate(t, delivered));
    var s1 := Next(c, s, Allocate(t, delivered));
    var s2 := Next(c, s1, Open(t, true));
    assert s2.threads[t] == s1.threads[t].(pc := RUNNING, openedAt := s1.clock + 1, found := None);
  }

  function EnrolledRow(c: Config, id: int, uid: int, d: int, index: int): Row {
    Row(id, uid, StoredUuids(c)(uid), c.biotype(d), c.name(d), index, "", 0, [])
  }

  lemma LockRun(c: Config, init: State, events: seq<Event>, states: seq<State>, t: int, uid: int, d: int)
    returns (events2: seq<Event>, states2: seq<State>)
    requires IsWholeRun(c, init, events, states)
    requires Ready(c, states[|events|], d) && t !in states[|events|].threads
    ensures IsWholeRun(c, init, events2, states2)
    ensures
      var before, after := states[|events|], states2[|events2|];
      && Waits(after, t, uid, d) && after.threads.Keys == before.threads.Keys + {t}
      && after.rows == before.rows && after.nextId == before.nextId
  {
    var s := states[|events|];
    var arrive, lock := Arrive(t, Enroll(-1), d, uid), TryLock(t);
    ArriveAndLock(c, s, t, uid, d);
    var s1 := Next(c, s, arrive);
    hide Next; hide Enabled;
    WholeRunExtends(c, init, events, states, arrive);
    WholeRunExtends(c, init, events + [arrive], states + [s1], lock);
    events2, states2 := events + [arrive] + [lock], states + [s1] + [Next(c, s1, lock)];
  }

  lemma StoreRun(c: Config, init: State, events: seq<Event>, states: seq<State>, t: int, uid: int, d: int,
                 delivered: seq<Row>)
    returns (events2: seq<Event>, states2: seq<State>)
    requires IsWholeRun(c, init, events, states) && Waits(states[|events|], t, uid, d)
    requires c.enabled(d) && Typed(delivered)
    requires Answers(delivered, AllocatorRange(uid, c.biotype(d), c.name(d), 0, -1), states[|events|].rows)
    ensures IsWholeRun(c, init, events2, states2)
    ensures
      var before, after := states[|events|], states2[|events2|];
      && Stores(after, t, d) && after.threads.Keys == before.threads.Keys && after.nextId == before.nextId + 1
      && after.rows == before.rows +
           [EnrolledRow(c, before.nextId, uid, d, EmptyIndex(Run(c.users, delivered).list, 0, -1))]
  {
    var s := states[|events|];
    var allocate, open, template := Allocate(t, delivered), Open(t, true), Template(t, "", 0, [], true);
    ChooseAndStore(c, s, t, uid, d, delivered);
    var s1 := Next(c, s, allocate);
    var s2 := Next(c, s1, open);
    hide Next; hide Enabled; hide EmptyIndex; hide Run; hide Answers; hide EnrolledRow;
    WholeRunExtends(c, init, events, states, allocate);
    WholeRunExtends(c, init, events + [allocate], states + [s1], open);
    WholeRunExtends(c, init, events + [allocate] + [open], states + [s1] + [s2], template);
    events2, states2 := events + [allocate] + [open] + [template], states + [s1] + [s2] + [Next(c, s2, template)];
  }

  /** A handler that has stored its template. */
  predicate Stores(s: State, t: int, d: int) {
    At(s, t, RUNNING) && s.threads[t].driver == d && !s.threads[t].op.Rename? && d in s.devices
  }

  lemma UnlockRun(c: Config, init: State, events: seq<Event>, states: seq<State>, t: int, d: int)
    returns (events2: seq<Event>, states2: seq<State>)
    requires IsWholeRun(c, init, events, states) && Stores(states[|events|], t, d)
    requires d in c.drivers && c.enabled(d)
    ensures IsWholeRun(c, init, events2, states2)
    ensures
      var before, after := states[|events|], states2[|events2|];
      && Ready(c, after, d) && after.threads.Keys == before.threads.Keys
      && after.rows == before.rows && after.nextId == before.nextId
  {
    var s := states[|events|];
    var ret, close, unlock := Return(t), Close(t, true), Unlock(t);
    ReturnAndUnlock(c, s, t, d);
    var s1 := Next(c, s, ret);
    var s2 := Next(c, s1, close);
    hide Next; hide Enabled;
    WholeRunExtends(c, init, events, states, ret);
    WholeRunExtends(c, init, events + [ret], states + [s1], close);
    WholeRunExtends(c, init, events + [ret] + [close], states + [s1] + [s2], unlock);
    events2, states2 := events + [ret] + [close] + [unlock], states + [s1] + [s2] + [Next(c, s2, unlock)];
  }

  /** A whole automatic enrolment at the end of a run. */
  lemma Enrol(c: Config, init: State, events: seq<Event>, states: seq<State>, t: int, uid: int, d: int,
              delivered: seq<Row>, index: int)
    returns (events2: seq<Event>, states2: seq<State>)
    requires IsWholeRun(c, init, events, states) && Typed(delivered)
    requires Ready(c, states[|events|], d) && t !in states[|events|].threads
    requires Answers(delivered, AllocatorRange(uid, c.biotype(d), c.name(d), 0, -1), states[|events|].rows)
    requires index == EmptyIndex(Run(c.users, delivered).list, 0, -1)
    ensures IsWholeRun(c, init, events2, states2)
    ensures
      var before, after := states[|events|], states2[|events2|];
      && Ready(c, after, d) && after.threads.Keys == before.threads.Keys + {t} && after.nextId == before.nextId + 1
      && after.rows == before.rows + [EnrolledRow(c, before.nextId, uid, d, index)]
  {
    assert d in c.drivers && c.enabled(d);
    hide *;
    events2, states2 := LockRun(c, init, events, states, t, uid, d);
    events2, states2 := StoreRun(c, init, events2, states2, t, uid, d, delivered);
    events2, states2 := UnlockRun(c, init, events2, states2, t, d);
  }

  // ---------- The run ----------

  lemma AllAnswer(q: Range, rows: seq<Row>)
    requires Sorted(rows) && forall r :: r in rows ==> Matches(q, r)
    ensures Answers(rows, q, rows)
  {
    SelectAll(q, rows);
  }

  lemma NoneAnswers(q: Range, rows: seq<Row>)
    requires forall r :: r in rows ==> !Matches(q, r)
    ensures Answers([], q, rows)
  {
    if Select(q, rows) != [] {
      assert Select(q, rows)[0] in Select(q, rows);
    }
  }

  lemma FirstChoice(users: int -> string)
    ensures EmptyIndex(Run(users, []).list, 0, -1) == 0
  {
  }

  /** The variables of the pass after a visible row with a new key. */
  function AfterNew(list: seq<Info>, r: Row): Pass {
    Pass(list, r.uid, r.biotype, Some(r.driver), r.index, r.uuid, r.uuid)
  }

  lemma StepToNew(p: Pass, users: int -> string, r: Row)
    requires Running(p) && r.biotype >= 0 && Changed(p, r)
    requires r.uuid == if p.oldUid != r.uid then users(r.uid) else p.userUuid
    ensures Step(p, users, r) == AfterNew(p.list + [NewInfo(r)], r)
  {
  }

  lemma SecondChoice(users: int -> string, r: Row)
    requires r.uid == -1 && r.uuid == "" && r.biotype >= 0 && r.index == 0
    ensures Run(users, [r]) == AfterNew([NewInfo(r)], r)
    ensures EmptyIndex(Run(users, [r]).list, 0, -1) == 1
  {
    RunUnfolds(users, [], r);
    StepToNew(START, users, r);
    assert [] + [r] == [r] && [] + [NewInfo(r)] == [NewInfo(r)];
    ContiguousScan([NewInfo(r)], 0);
  }

  /** The indices 0 and 1 of the uid -1 and the index 0 of another user. */
  lemma ThreeListed(users: int -> string, r0: Row, r1: Row, r2: Row)
    requires r0.uid == r1.uid == -1 && r2.uid == 1000 && r0.uuid == r1.uuid == "" && r2.uuid == users(1000) != ""
    requires r0.biotype == r1.biotype == r2.biotype >= 0 && r0.driver == r1.driver == r2.driver
    requires r0.index == 0 && r1.index == 1 && r2.index == 0
    ensures Typed([r0, r1, r2]) && Run(users, [r0, r1, r2]).list == [NewInfo(r0), NewInfo(r1), NewInfo(r2)]
  {
    var p0 := AfterNew([NewInfo(r0)], r0);
    var p1 := AfterNew([NewInfo(r0)] + [NewInfo(r1)], r1);
    assert Typed([r0]) && Typed([r0] + [r1]) && Typed([r0] + [r1] + [r2]);
    assert Changed(p0, r1) && Changed(p1, r2);
    assert [r0] + [r1] + [r2] == [r0, r1, r2];
    hide Run; hide Step; hide Changed; hide Typed;
    SecondChoice(users, r0);
    RunUnfolds(users, [r0], r1);
    StepToNew(p0, users, r1);
    RunUnfolds(users, [r0] + [r1], r2);
    StepToNew(p1, users, r2);
  }

  /** The scan runs over the first two, counts to 2, and ends with the last: one above it is taken. */
  lemma LastChoice(list: seq<Info>)
    requires |list| == 3 && list[0].index == 0 && list[1].index == 1 && list[2].index == 0
    ensures EmptyIndex(list, 0, -1) == 1
  {
    ContiguousScan(list[..2], 0);
  }

  /** What the four enrolments leave, and what their queries answer before. */
  lemma FourRows(c: Config, id: int, d: int)
    requires c.users(1000) != ""
    ensures
      var own := AllocatorRange(-1, c.biotype(d), c.name(d), 0, -1);
      var other := AllocatorRange(1000, c.biotype(d), c.name(d), 0, -1);
      var r0, r1 := EnrolledRow(c, id, -1, d, 0), EnrolledRow(c, id + 1, -1, d, 1);
      var r2, r3 := EnrolledRow(c, id + 2, 1000, d, 0), EnrolledRow(c, id + 3, -1, d, 1);
      && Answers([], own, []) && Answers([r0], own, [r0]) && Answers([], other, [r0, r1])
      && Answers([r0, r1, r2], own, [r0, r1, r2]) && !CollisionFree(c, [r0, r1, r2, r3])
      && Typed([]) && Typed([r0]) && Typed([r0, r1, r2])
      && EmptyIndex(Run(c.users, []).list, 0, -1) == 0 && EmptyIndex(Run(c.users, [r0]).list, 0, -1) == 1
      && EmptyIndex(Run(c.users, [r0, r1, r2]).list, 0, -1) == 1
  {
    var own := AllocatorRange(-1, c.biotype(d), c.name(d), 0, -1);
    var other := AllocatorRange(1000, c.biotype(d), c.name(d), 0, -1);
    var r0, r1 := EnrolledRow(c, id, -1, d, 0), EnrolledRow(c, id + 1, -1, d, 1);
    var r2, r3 := EnrolledRow(c, id + 2, 1000, d, 0), EnrolledRow(c, id + 3, -1, d, 1);
    hide Answers; hide Run; hide EmptyIndex; hide Select; hide CollisionFree;
    NoneAnswers(own, []);
    AllAnswer(own, [r0]);
    NoneAnswers(other, [r0, r1]);
    AllAnswer(own, [r0, r1, r2]);
    FirstChoice(c.users);
    SecondChoice(c.users, r0);
    ThreeListed(c.users, r0, r1, r2);
    LastChoice([NewInfo(r0), NewInfo(r1), NewInfo(r2)]);
    SameFeatureCollides(c, [r0, r1, r2, r3], 1, 3);
  }

  lemma SameFeatureCollides(c: Config, rows: seq<Row>, i: nat, j: nat)
    requires i < j < |rows| && Visible(StoredUuids(c), rows[i]) && Visible(StoredUuids(c), rows[j])
    requires KeyOf(rows[i]) == KeyOf(rows[j])
    ensures !CollisionFree(c, rows)
  {
  }

  lemma StartsReady(c: Config, init: State, d: int)
    requires Initial(c, init) && d in c.drivers && c.enabled(d)
    ensures Ready(c, init, d) && IsWholeRun(c, init, [], [init]) && init.threads.Keys == {}
  {
    hide Next; hide Enabled; hide Whole;
  }

  /** From an empty table, two automatic enrolments for the uid -1, one for user 1000 and another
      for -1 leave two visible rows of one feature, although the list for each choice was whole. */
  lemma NobodyCollides(c: Config, init: State, d: int) returns (events: seq<Event>, states: seq<State>)
    requires Initial(c, init) && init.rows == [] && d in c.drivers && c.enabled(d) && c.users(1000) != ""
    ensures IsWholeRun(c, init, events, states)
    ensures !CollisionFree(c, states[|events|].rows)
  {
    events, states := [], [init];
    var id := init.nextId;
    var r0, r1 := EnrolledRow(c, id, -1, d, 0), EnrolledRow(c, id + 1, -1, d, 1);
    var r2, r3 := EnrolledRow(c, id + 2, 1000, d, 0), EnrolledRow(c, id + 3, -1, d, 1);
    hide *;
    StartsReady(c, init, d);
    FourRows(c, id, d);
    assert [] + [r0] == [r0] && [r0] + [r1] == [r0, r1];
    assert [r0, r1] + [r2] == [r0, r1, r2] && [r0, r1, r2] + [r3] == [r0, r1, r2, r3];
    events, states := Enrol(c, init, events, states, 1, -1, d, [], 0);
    events, states := Enrol(c, init, events, states, 2, -1, d, [r0], 1);
    events, states := Enrol(c, init, events, states, 3, 1000, d, [], 0);
    events, states := Enrol(c, init, events, states, 4, -1, d, [r0, r1, r2], 1);
  }
}
