/** The daemon as a transition system. Handler threads take a lock per driver without waiting,
    operate the device, release the lock and only then read the result that the device shows.
    Callbacks of the fingerprint library, the failures of devices and of SQL statements, and
    the interleaving of the threads are the choices of the events. */
module Daemon {
  import opened FeatureRows
  import opened FeatureGrouping
  import opened FeatureStore
  import opened IndexAllocator
  import opened FeatureRename

  // ---------- States ----------

  /** What is fixed while the daemon runs. */
  datatype Config = Config(users: int -> string, drivers: set<int>, name: int -> string, biotype: int -> nat,
                           enabled: int -> bool)

  datatype Op =
    | Enroll(idx: int)
    | Verify
    | Identify
    | Capture
    | Search
    | GetList
    | Clean(start: int, end: int)
    | CleanAll(start: int, end: int)
    | Rename(featureIndex: int, newName: string)

  datatype Reply = Success | NoMatch | Error | Busy | Finished

  datatype Pc = ARRIVED | LOCKED | READY | RUNNING | CLOSING | CLOSED | UNLOCKED | ANSWERED(reply: Reply)

  /** A handler. `index` is the index that an enrolment uses, `stored` whether its template
      was delivered, `pending` the samples that a rename has read, `found` the uid that an
      identification will return unless it fails. `openedAt` and `unlockedAt` number the events
      that opened the device and released its lock, 0 before them. */
  datatype Thread = Thread(op: Op, driver: int, uid: int, pc: Pc, index: int, stored: bool,
                           pending: set<Sample>, openedAt: nat, unlockedAt: nat, found: Option<int>)

  /** What a device shows; `written` numbers the event that wrote the result, 0 at first. */
  datatype DeviceState = DeviceState(status: int, result: int, written: nat)

  datatype State = State(rows: seq<Row>, nextId: int, locks: map<int, int>, devices: map<int, DeviceState>,
                         threads: map<int, Thread>, clock: nat)

  // ---------- Codes ----------

  /** The type of an operation; a result or a state is 100 times the type plus a detail. */
  function TypeOf(op: Op): int {
    match op
    case Enroll(_) => 2
    case Verify => 3
    case Identify => 4
    case Capture => 5
    case Search => 6
    case Clean(_, _) => 7
    case CleanAll(_, _) => 7
    case GetList => 8
    case Rename(_, _) => 9
  }

  const IDLE := 0
  const DISABLED := 3
  const OPEN_SUCCESS := 100
  const OPEN_FAIL := 101
  const CLOSE_FAIL := 1001

  /** The state that an operation sets while it works: three of them set the bare type. */
  function DoingStatus(op: Op): int {
    if op.Identify? || op.Search? || op.GetList? then TypeOf(op) else 100 * TypeOf(op) + 1
  }

  /** bio_set_ops_result: the type comes from the state of the device. */
  function Relative(status: int, detail: int): int {
    status / 100 * 100 + detail % 100
  }

  /** What an operation writes into the result before it returns. */
  datatype Note = COMPLETED | MISSED | STOPPED | TIMED_OUT | UNSUPPORTED

  predicate MayWrite(op: Op, note: Note) {
    match note
    case COMPLETED => op.Capture? || op.Search? || op.GetList? || op.Clean? || op.Rename?
    case MISSED => op.Capture? || op.Search? || op.Clean? || op.Rename?
    case STOPPED => op.Enroll? || op.Verify? || op.Identify? || op.Search? || op.Capture?
    case TIMED_OUT => op.Enroll? || op.Verify? || op.Identify? || op.Search? || op.Capture?
    case UNSUPPORTED => !op.Rename? && !op.CleanAll?
  }

  /** The result that a note writes while the device is in a state. A capture goes idle first. */
  function NoteResult(op: Op, status: int, note: Note): int {
    match note
    case COMPLETED => if op.Capture? then Relative(IDLE, 0) else 100 * TypeOf(op)
    case MISSED =>
      if op.Capture? then Relative(IDLE, 1)
      else if op.Clean? then Relative(status, 1)
      else 100 * TypeOf(op) + 1
    case STOPPED => Relative(status, 3)
    case TIMED_OUT => 100 * TypeOf(op) + 4
    case UNSUPPORTED => Relative(IDLE, 2)
  }

  function MatchCode(op: Op): int {
    100 * TypeOf(op)
  }

  /** The reply that a handler forms from the result it reads. */
  function ReplyFor(op: Op, result: int): Reply {
    match op
    case Verify => if result == MatchCode(op) then Success else if result == MatchCode(op) + 1 then NoMatch else Error
    case Identify => if result == MatchCode(op) then Success else if result == MatchCode(op) + 1 then NoMatch else Error
    case Rename(_, _) => if result == 900 then Success else Error
    case Enroll(_) => if result % 100 == 0 then Success else Error
    case Clean(_, _) => if result % 100 == 0 then Success else Error
    case _ => Finished
  }

  /** The uid that goes with the reply to an identification. */
  function AnsweredUid(th: Thread): int {
    if th.found.Some? then th.found.value else -1
  }

  // ---------- Events ----------

  datatype Event =
    | Arrive(t: int, op: Op, driver: int, uid: int)
    | TryLock(t: int)
    | Allocate(t: int, delivered: seq<Row>)
    | Open(t: int, opens: bool)
    | Match(t: int, matched: bool, found: int)
    | Template(t: int, indexName: string, sampleNo: int, data: seq<bv8>, ok: bool)
    | DeleteRows(t: int, ok: bool)
    | ReadNames(t: int, delivered: seq<Row>)
    | UpdateName(t: int, sample: Sample, ok: bool)
    | WriteNote(t: int, note: Note)
    | Return(t: int)
    | Close(t: int, closes: bool)
    | Unlock(t: int)
    | Answer(t: int)

  function ThreadKey(c: Config, th: Thread): Key {
    Key(th.uid, c.biotype(th.driver), c.name(th.driver),
        match th.op case Rename(i, _) => i case _ => th.index)
  }

  function CleanedRange(c: Config, th: Thread): Range
    requires th.op.Clean? || th.op.CleanAll?
  {
    match th.op
    case Clean(start, end) => CleanRange(th.uid, c.biotype(th.driver), Some(c.name(th.driver)), start, end)
    case CleanAll(start, end) => CleanRange(th.uid, -1, None, start, end)
  }

  /** The query for the choice of an index. */
  function ChoiceRange(c: Config, th: Thread): Range {
    AllocatorRange(th.uid, c.biotype(th.driver), c.name(th.driver), 0, -1)
  }

  /** The query of a rename. */
  function NameRange(c: Config, th: Thread): Range {
    FeatureRange(ThreadKey(c, th))
  }

  lemma DeliveredTyped(c: Config, delivered: seq<Row>, q: Range, rows: seq<Row>, driver: int)
    requires Delivers(delivered, q, rows) && q.biotype == c.biotype(driver)
    ensures Typed(delivered)
  {
    DeliveredContain(delivered, q, rows);
  }

  /** The samples of the entries that a rename updates. */
  function SamplesToRename(list: seq<Info>, key: Key): set<Sample> {
    set s | s in SamplesRead(list, key)
  }

  predicate At(s: State, t: int, pc: Pc) {
    t in s.threads && s.threads[t].pc == pc
  }

  ghost predicate Enabled(c: Config, s: State, e: Event) {
    match e
    case Arrive(t, op, driver, uid) =>
      t !in s.threads && driver in c.drivers && driver in s.devices
    case TryLock(t) =>
      At(s, t, ARRIVED) && !s.threads[t].op.CleanAll?
    case Allocate(t, delivered) =>
      // A statement can fail while the list is read; then only its first rows are delivered.
      At(s, t, LOCKED) && Delivers(delivered, ChoiceRange(c, s.threads[t]), s.rows)
    case Open(t, opens) =>
      At(s, t, READY) && !s.threads[t].op.Rename? && (opens ==> c.enabled(s.threads[t].driver))
    case Match(t, _, found) =>
      // The query of the callback for a user lists features of this user only.
      At(s, t, RUNNING) && (s.threads[t].op.Verify? || s.threads[t].op.Identify?) &&
      (s.threads[t].uid != -1 ==> found == s.threads[t].uid)
    case Template(t, _, _, _, _) =>
      At(s, t, RUNNING) && s.threads[t].op.Enroll? && !s.threads[t].stored
    case DeleteRows(t, _) =>
      if t in s.threads && s.threads[t].op.CleanAll? then At(s, t, ARRIVED)
      else At(s, t, RUNNING) && s.threads[t].op.Clean?
    case ReadNames(t, delivered) =>
      At(s, t, READY) && s.threads[t].op.Rename? && Delivers(delivered, NameRange(c, s.threads[t]), s.rows)
    case UpdateName(t, sample, _) =>
      At(s, t, RUNNING) && s.threads[t].op.Rename? && sample in s.threads[t].pending
    case WriteNote(t, note) =>
      At(s, t, RUNNING) && MayWrite(s.threads[t].op, note)
    case Return(t) =>
      At(s, t, RUNNING)
    case Close(t, _) =>
      At(s, t, CLOSING)
    case Unlock(t) =>
      At(s, t, CLOSED)
    case Answer(t) =>
      At(s, t, UNLOCKED) && s.threads[t].driver in s.devices
  }

  // ---------- Steps ----------

  function SetThread(s: State, t: int, th: Thread): State {
    s.(threads := s.threads[t := th])
  }

  function SetPc(s: State, t: int, pc: Pc): State
    requires t in s.threads
  {
    SetThread(s, t, s.threads[t].(pc := pc))
  }

  function StatusOf(s: State, driver: int): int {
    if driver in s.devices then s.devices[driver].status else IDLE
  }

  /** A write of the state and the result of a device by the event that is happening. */
  function Write(s: State, driver: int, status: int, result: int): State {
    s.(devices := s.devices[driver := DeviceState(status, result, s.clock + 1)])
  }

  /** The UUIDs under which enrolment stores: an empty one for the uid -1. */
  function StoredUuids(c: Config): int -> string {
    WithNobody(c.users)
  }

  function NewRow(c: Config, s: State, th: Thread, indexName: string, sampleNo: int, data: seq<bv8>): Row {
    Row(s.nextId, th.uid, StoredUuids(c)(th.uid), c.biotype(th.driver), c.name(th.driver), th.index, indexName,
        sampleNo, data)
  }

  /** The feature that an enrolment inserts. */
  function NewFeature(c: Config, th: Thread, indexName: string, sampleNo: int, data: seq<bv8>): Info {
    Info(th.uid, c.biotype(th.driver), c.name(th.driver), th.index, indexName, [Sample(-1, sampleNo, data)])
  }

  /** The new row is what the insertion of this feature writes. */
  lemma NewRowIsInserted(c: Config, s: State, th: Thread, indexName: string, sampleNo: int, data: seq<bv8>)
    ensures [NewRow(c, s, th, indexName, sampleNo, data)] ==
      Flatten(c.users, [NewFeature(c, th, indexName, sampleNo, data)], s.nextId)
  {
  }

  function RenameUpdate(c: Config, th: Thread, sample: Sample): Update
    requires th.op.Rename?
  {
    MoveOf(ThreadKey(c, th), th.op.newName, sample)
  }

  function Act(c: Config, s: State, e: Event): State
    requires Enabled(c, s, e)
  {
    match e
    case Arrive(t, op, driver, uid) =>
      SetThread(s, t, Thread(op, driver, uid, ARRIVED, -1, false, {}, 0, 0, None))
    case TryLock(t) =>
      var th := s.threads[t];
      if th.driver in s.locks then SetPc(s, t, ANSWERED(Busy))
      else
        var held := s.(locks := s.locks[th.driver := t]);
        if th.op.Enroll? && th.op.idx == -1 then SetPc(held, t, LOCKED)
        else SetThread(held, t, th.(pc := READY, index := if th.op.Enroll? then th.op.idx else -1))
    case Allocate(t, delivered) =>
      var th := s.threads[t];
      DeliveredTyped(c, delivered, ChoiceRange(c, th), s.rows, th.driver);
      SetThread(s, t, th.(pc := READY, index := EmptyIndex(Run(c.users, delivered).list, 0, -1)))
    case Open(t, opens) =>
      var th := s.threads[t].(openedAt := s.clock + 1);
      if !c.enabled(th.driver) then
        SetThread(Write(s, th.driver, DISABLED, Relative(DISABLED, 2)), t, th.(pc := CLOSED))
      else if opens then
        SetThread(Write(s, th.driver, DoingStatus(th.op), OPEN_SUCCESS), t,
                  th.(pc := RUNNING, found := if th.op.Identify? then Some(th.uid) else None))
      else
        SetThread(Write(s, th.driver, IDLE, OPEN_FAIL), t, th.(pc := CLOSING))
    case Match(t, matched, found) =>
      var th := s.threads[t];
      SetThread(Write(s, th.driver, StatusOf(s, th.driver), MatchCode(th.op) + if matched then 0 else 1), t,
                if matched && th.found.Some? then th.(found := Some(found)) else th)
    case Template(t, indexName, sampleNo, data, ok) =>
      // The result is a success even if the row could not be written.
      var th := s.threads[t];
      var written := Write(SetThread(s, t, th.(stored := true)), th.driver, IDLE, 200);
      if ok then
        written.(rows := s.rows + [NewRow(c, s, th, indexName, sampleNo, data)], nextId := s.nextId + 1)
      else written
    case DeleteRows(t, ok) =>
      var th := s.threads[t];
      var after := if ok then s.(rows := Reject(CleanedRange(c, th), s.rows)) else s;
      if th.op.CleanAll? then SetPc(after, t, ANSWERED(if ok then Finished else Error)) else after
    case ReadNames(t, delivered) =>
      var th := s.threads[t];
      DeliveredTyped(c, delivered, NameRange(c, th), s.rows, th.driver);
      SetThread(s, t, th.(pc := RUNNING,
                          pending := SamplesToRename(Run(c.users, delivered).list, ThreadKey(c, th))))
    case UpdateName(t, sample, ok) =>
      if ok then s.(rows := UpdatedRows(RenameUpdate(c, s.threads[t], sample), s.rows)) else s
    case WriteNote(t, note) =>
      var th := s.threads[t];
      // After a stop or a timeout an identification returns -1.
      SetThread(Write(s, th.driver, IDLE, NoteResult(th.op, StatusOf(s, th.driver), note)), t, th.(found := None))
    case Return(t) =>
      SetPc(s, t, if s.threads[t].op.Rename? then CLOSED else CLOSING)
    case Close(t, closes) =>
      var th := s.threads[t];
      SetPc(if closes then s else Write(s, th.driver, IDLE, CLOSE_FAIL), t, CLOSED)
    case Unlock(t) =>
      var th := s.threads[t];
      SetThread(s.(locks := s.locks - {th.driver}), t, th.(pc := UNLOCKED, unlockedAt := s.clock + 1))
    case Answer(t) =>
      var th := s.threads[t];
      SetPc(s, t, ANSWERED(ReplyFor(th.op, s.devices[th.driver].result)))
  }

  /** Every event counts one on the clock. */
  function Next(c: Config, s: State, e: Event): State
    requires Enabled(c, s, e)
  {
    var after := Act(c, s, e);
    after.(clock := s.clock + 1)
  }

  /** A run of the daemon from state `init`. */
  ghost predicate IsRun(c: Config, init: State, events: seq<Event>, states: seq<State>) {
    && |states| == |events| + 1 && states[0] == init
    && forall i :: 0 <= i < |events| ==>
         Enabled(c, states[i], events[i]) && states[i + 1] == Next(c, states[i], events[i])
  }

  lemma RunStarts(c: Config, init: State)
    ensures IsRun(c, init, [], [init])
  {
  }

  lemma RunExtends(c: Config, init: State, events: seq<Event>, states: seq<State>, e: Event)
    requires IsRun(c, init, events, states) && Enabled(c, states[|events|], e)
    ensures IsRun(c, init, events + [e], states + [Next(c, states[|events|], e)])
  {
    hide Enabled; hide Next;
  }

  /** No handler at work, and no device shows a match. */
  predicate Initial(c: Config, s: State) {
    && s.threads == map[] && s.locks == map[] && s.clock == 0
    && Numbered(s.rows, s.nextId)
    && (forall d :: d in s.devices ==> s.devices[d] == DeviceState(IDLE, 0, 0))
    && (forall d :: d in c.drivers ==> d in s.devices)
  }

  // ---------- What an event can change ----------

  /** The events of a handler that operates its device. */
  predicate Operates(e: Event) {
    e.Open? || e.Match? || e.Template? || e.WriteNote? || e.Return? || e.Close?
  }

  lemma OperatingThread(c: Config, s: State, e: Event)
    requires Enabled(c, s, e) && Operates(e)
    ensures e.t in Next(c, s, e).threads
    ensures Next(c, s, e).threads == s.threads[e.t := Next(c, s, e).threads[e.t]]
  {
  }

  lemma OtherwiseThread(c: Config, s: State, e: Event)
    requires Enabled(c, s, e) && !Operates(e)
    ensures e.t in Next(c, s, e).threads
    ensures Next(c, s, e).threads == s.threads[e.t := Next(c, s, e).threads[e.t]]
  {
  }

  /** An event changes no handler but its own. */
  lemma OnlyOwnThread(c: Config, s: State, e: Event)
    requires Enabled(c, s, e)
    ensures e.t in Next(c, s, e).threads
    ensures Next(c, s, e).threads == s.threads[e.t := Next(c, s, e).threads[e.t]]
  {
    hide Enabled; hide Next;
    if Operates(e) {
      OperatingThread(c, s, e);
    } else {
      OtherwiseThread(c, s, e);
    }
  }

  /** Its operation, user and device are fixed. */
  lemma ThreadIdentity(c: Config, s: State, e: Event)
    requires Enabled(c, s, e) && e.t in s.threads && e.t in Next(c, s, e).threads
    ensures
      var before, after := s.threads[e.t], Next(c, s, e).threads[e.t];
      after.op == before.op && after.driver == before.driver && after.uid == before.uid
  {
    match e
    case Arrive(_, _, _, _) =>
    case TryLock(_) =>
    case Allocate(_, _) =>
    case Open(_, _) =>
    case Match(_, _, _) =>
    case Template(_, _, _, _, _) =>
    case DeleteRows(_, _) =>
    case ReadNames(_, _) =>
    case UpdateName(_, _, _) =>
    case WriteNote(_, _) =>
    case Return(_) =>
    case Close(_, _) =>
    case Unlock(_) =>
    case Answer(_) =>
  }

  lemma OperatedDevice(c: Config, s: State, e: Event)
    requires Enabled(c, s, e) && Operates(e)
    ensures e.t in s.threads
    ensures Next(c, s, e).devices == s.devices ||
      (s.threads[e.t].driver in Next(c, s, e).devices &&
       Next(c, s, e).devices == s.devices[s.threads[e.t].driver := Next(c, s, e).devices[s.threads[e.t].driver]])
  {
  }

  lemma UntouchedDevices(c: Config, s: State, e: Event)
    requires Enabled(c, s, e) && !Operates(e)
    ensures Next(c, s, e).devices == s.devices
  {
  }

  /** An event writes to no device but the one of its handler. */
  lemma OnlyOwnDevice(c: Config, s: State, e: Event)
    requires Enabled(c, s, e)
    ensures Next(c, s, e).clock == s.clock + 1
    ensures Next(c, s, e).devices == s.devices ||
      (e.t in s.threads && s.threads[e.t].driver in Next(c, s, e).devices &&
       Next(c, s, e).devices == s.devices[s.threads[e.t].driver := Next(c, s, e).devices[s.threads[e.t].driver]])
  {
    assert Next(c, s, e).clock == s.clock + 1 by {
      hide Enabled; hide Act;
    }
    hide Enabled; hide Next;
    if Operates(e) {
      OperatedDevice(c, s, e);
    } else {
      UntouchedDevices(c, s, e);
    }
  }

  // ---------- The locks ----------

  predicate Holds(th: Thread) {
    th.pc == LOCKED || th.pc == READY || th.pc == RUNNING || th.pc == CLOSING || th.pc == CLOSED
  }

  /** Every handler between its lock and its unlock is the holder of its driver's lock. */
  predicate LocksHeld(s: State) {
    forall t :: t in s.threads && Holds(s.threads[t]) ==>
      s.threads[t].driver in s.locks && s.locks[s.threads[t].driver] == t
  }

  function LocksAfter(s: State, e: Event): map<int, int>
    requires e.t in s.threads || e.Arrive?
  {
    if e.TryLock? && s.threads[e.t].driver !in s.locks then s.locks[s.threads[e.t].driver := e.t]
    else if e.Unlock? then s.locks - {s.threads[e.t].driver}
    else s.locks
  }

  lemma OperatingFrame(c: Config, s: State, e: Event)
    requires Enabled(c, s, e) && Operates(e)
    ensures e.t in s.threads && Next(c, s, e).locks == s.locks
  {
  }

  lemma OtherwiseFrame(c: Config, s: State, e: Event)
    requires Enabled(c, s, e) && !Operates(e)
    ensures e.t in s.threads || e.Arrive?
    ensures Next(c, s, e).locks == LocksAfter(s, e)
  {
  }

  lemma StepFrame(c: Config, s: State, e: Event)
    requires Enabled(c, s, e)
    ensures e.t in s.threads || e.Arrive?
    ensures Next(c, s, e).locks == LocksAfter(s, e)
  {
    hide Enabled; hide Next;
    if Operates(e) {
      OperatingFrame(c, s, e);
    } else {
      OtherwiseFrame(c, s, e);
    }
  }

  lemma OthersUnchanged(c: Config, s: State, e: Event, t: int)
    requires Enabled(c, s, e) && t in s.threads && t != e.t
    ensures t in Next(c, s, e).threads && Next(c, s, e).threads[t] == s.threads[t]
  {
    hide Next; hide Enabled;
    OnlyOwnThread(c, s, e);
  }

  lemma OwnHolds(c: Config, s: State, e: Event)
    requires Enabled(c, s, e) && e.t in Next(c, s, e).threads
    ensures
      var after := Next(c, s, e).threads[e.t];
      if e.t !in s.threads then !Holds(after)
      else
        var before := s.threads[e.t];
        && after.driver == before.driver
        && (e.Unlock? ==> Holds(before))
        && (Holds(after) ==> (Holds(before) && !e.Unlock?) || (e.TryLock? && before.driver !in s.locks))
  {
  }

  lemma LocksStayHeld(c: Config, s: State, e: Event)
    requires LocksHeld(s) && Enabled(c, s, e)
    ensures LocksHeld(Next(c, s, e))
  {
    StepFrame(c, s, e);
    OnlyOwnThread(c, s, e);
    OwnHolds(c, s, e);
    var after := Next(c, s, e);
    hide Next; hide Enabled; hide Holds;
    forall t | t in after.threads && Holds(after.threads[t])
      ensures after.threads[t].driver in after.locks && after.locks[after.threads[t].driver] == t
    {
      if t != e.t {
        assert t in s.threads && after.threads[t] == s.threads[t];
      }
    }
  }

  // ---------- Steps of one handler ----------

  /** The device can be used, and nobody holds it. */
  predicate Ready(c: Config, s: State, d: int) {
    d in c.drivers && c.enabled(d) && d in s.devices && d !in s.locks
  }

  lemma ReturnAndUnlock(c: Config, s: State, t: int, d: int)
    requires At(s, t, RUNNING) && s.threads[t].driver == d && !s.threads[t].op.Rename? && d in s.devices
    ensures
      Enabled(c, s, Return(t)) &&
      var s1 := Next(c, s, Return(t));
      Enabled(c, s1, Close(t, true)) &&
      var s2 := Next(c, s1, Close(t, true));
      Enabled(c, s2, Unlock(t)) &&
      var s3 := Next(c, s2, Unlock(t));
      && s3.rows == s.rows && s3.nextId == s.nextId && d in s3.devices && d !in s3.locks
      && s3.threads == s.threads[t := s.threads[t].(pc := UNLOCKED, unlockedAt := s2.clock + 1)]
  {
    assert Next(c, s, Return(t)).threads[t] == s.threads[t].(pc := CLOSING);
  }
}
