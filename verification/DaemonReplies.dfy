/** What a success reply of a verification or identification says: a match was reported on the
    device after the handler itself had opened it, and exactly when that match was its own. */
module DaemonReplies {
  import opened FeatureRows
  import opened Daemon

  predicate Compares(op: Op) {
    op.Verify? || op.Identify?
  }

  // ---------- The invariant: where the shown result comes from ----------

  /** The events that write the state and the result of a device. */
  predicate IsWrite(e: Event) {
    e.Open? || e.Match? || e.Template? || e.WriteNote? || (e.Close? && !e.closes)
  }

  predicate Writes(s: State, e: Event, d: int) {
    e.t in s.threads && s.threads[e.t].driver == d && IsWrite(e)
  }

  /** Event number `n` reported a match on the device, for an operation of this kind. */
  predicate MatchAt(events: seq<Event>, n: nat, s: State, driver: int, op: Op) {
    && 0 < n <= |events|
    && events[n - 1].Match? && events[n - 1].matched
    && events[n - 1].t in s.threads
    && s.threads[events[n - 1].t].driver == driver && s.threads[events[n - 1].t].op == op
  }

  /** The result is that of the last event that wrote to the device. */
  predicate DeviceOk(events: seq<Event>, s: State, driver: int, dev: DeviceState) {
    && dev.written <= |events|
    && (dev.written > 0 ==> Writes(s, events[dev.written - 1], driver))
    && (forall k :: dev.written <= k < |events| ==> !Writes(s, events[k], driver))
    && (dev.result == MatchCode(Verify) ==> MatchAt(events, dev.written, s, driver, Verify))
    && (dev.result == MatchCode(Identify) ==> MatchAt(events, dev.written, s, driver, Identify))
  }

  /** No other handler wrote to the device from one event to another. */
  predicate OwnWrites(events: seq<Event>, s: State, t: int, driver: int, from: nat, to: nat)
    requires to <= |events|
  {
    forall k :: from <= k < to && Writes(s, events[k], driver) ==> events[k].t == t
  }

  predicate AfterOpening(th: Thread) {
    th.pc == RUNNING || th.pc == CLOSING || th.pc == CLOSED || th.pc == UNLOCKED
  }

  predicate BeforeOpening(th: Thread) {
    th.pc == ARRIVED || th.pc == LOCKED || th.pc == READY
  }

  predicate OpenedOk(events: seq<Event>, s: State, t: int, th: Thread) {
    && th.driver in s.devices
    && (th.openedAt > 0 ==>
          th.openedAt <= |events| && events[th.openedAt - 1].Open? && events[th.openedAt - 1].t == t)
    && (BeforeOpening(th) ==> th.openedAt == 0)
    && (!th.op.Rename? && AfterOpening(th) ==> th.openedAt > 0)
  }

  /** Since its opening and as long as it holds the lock, only the handler itself has written. */
  predicate HolderOk(events: seq<Event>, s: State, t: int, th: Thread) {
    Holds(th) && th.openedAt > 0 ==> OwnWrites(events, s, t, th.driver, th.openedAt - 1, |events|)
  }

  /** The same up to its unlock, after which it has done nothing. */
  predicate UnlockedOk(events: seq<Event>, s: State, t: int, th: Thread) {
    th.pc == UNLOCKED ==>
      && 0 < th.unlockedAt <= |events| && events[th.unlockedAt - 1] == Unlock(t)
      && (forall k :: th.unlockedAt <= k < |events| ==> events[k].t != t)
      && (th.openedAt > 0 ==> OwnWrites(events, s, t, th.driver, th.openedAt - 1, th.unlockedAt))
  }

  predicate ThreadOk(events: seq<Event>, s: State, t: int, th: Thread) {
    OpenedOk(events, s, t, th) && HolderOk(events, s, t, th) && UnlockedOk(events, s, t, th)
  }

  /** `events` are the events so far. */
  predicate Inv(events: seq<Event>, s: State) {
    && s.clock == |events| && LocksHeld(s)
    && (forall e :: e in events ==> e.t in s.threads)
    && (forall d :: d in s.devices ==> DeviceOk(events, s, d, s.devices[d]))
    && (forall t :: t in s.threads ==> ThreadOk(events, s, t, s.threads[t]))
  }

  // ---------- What one event does ----------

  lemma NoteIsNoMatch(op: Op, status: int, note: Note)
    requires MayWrite(op, note)
    ensures NoteResult(op, status, note) != MatchCode(Verify) && NoteResult(op, status, note) != MatchCode(Identify)
  {
    assert Relative(status, 1) % 100 == 1 && Relative(status, 3) % 100 == 3;
  }

  /** An event that writes to a device writes a result that is no match, or reports a match; the
      others leave it as it is. */
  lemma DeviceStep(c: Config, s: State, e: Event, d: int)
    requires Enabled(c, s, e) && d in s.devices
    ensures d in Next(c, s, e).devices
    ensures
      var before, after := s.devices[d], Next(c, s, e).devices[d];
      if !Writes(s, e, d) then after == before
      else
        && after.written == s.clock + 1
        && if e.Match? && e.matched then after.result == MatchCode(s.threads[e.t].op)
           else after.result != MatchCode(Verify) && after.result != MatchCode(Identify)
  {
    if e.WriteNote? {
      NoteIsNoMatch(s.threads[e.t].op, StatusOf(s, s.threads[e.t].driver), e.note);
    }
  }

  lemma DevicesAfter(c: Config, s: State, e: Event)
    requires Enabled(c, s, e) && (e.t in s.threads ==> s.threads[e.t].driver in s.devices)
    ensures Next(c, s, e).clock == s.clock + 1
    ensures forall d :: d in Next(c, s, e).devices <==> d in s.devices
  {
    hide Next; hide Enabled;
    OnlyOwnDevice(c, s, e);
  }

  /** Handlers stay, and keep their operation and device. */
  lemma ThreadsStay(c: Config, s: State, e: Event, t: int)
    requires Enabled(c, s, e) && t in s.threads
    ensures t in Next(c, s, e).threads
    ensures Next(c, s, e).threads[t].op == s.threads[t].op && Next(c, s, e).threads[t].driver == s.threads[t].driver
  {
    hide Next; hide Enabled;
    OnlyOwnThread(c, s, e);
    if t == e.t {
      ThreadIdentity(c, s, e);
    }
  }

  lemma ThreadsGrow(c: Config, s: State, e: Event)
    requires Enabled(c, s, e)
    ensures e.t in Next(c, s, e).threads && forall t :: t in s.threads ==> t in Next(c, s, e).threads
  {
    hide Next; hide Enabled;
    OnlyOwnThread(c, s, e);
  }

  lemma WritesStay(c: Config, s: State, e: Event, past: Event, d: int)
    requires Enabled(c, s, e) && past.t in s.threads
    ensures Writes(Next(c, s, e), past, d) <==> Writes(s, past, d)
  {
    hide Next; hide Enabled;
    ThreadsStay(c, s, e, past.t);
  }

  /** Nothing is written without the lock. */
  lemma WriterHolds(c: Config, s: State, e: Event)
    requires Enabled(c, s, e) && IsWrite(e)
    ensures e.t in s.threads && Holds(s.threads[e.t])
  {
  }

  lemma WriteIsNow(c: Config, s: State, e: Event, d: int)
    requires Enabled(c, s, e) && Writes(Next(c, s, e), e, d)
    ensures Writes(s, e, d)
  {
    WriterHolds(c, s, e);
    hide Next; hide Enabled;
    ThreadsStay(c, s, e, e.t);
  }

  lemma ArrivalStep(c: Config, s: State, e: Event)
    requires Enabled(c, s, e) && e.t !in s.threads && e.t in Next(c, s, e).threads
    ensures
      var after := Next(c, s, e).threads[e.t];
      after.openedAt == 0 && after.pc == ARRIVED && after.driver in s.devices
  {
  }

  lemma OpenStep(c: Config, s: State, e: Event)
    requires Enabled(c, s, e) && e.Open? && e.t in Next(c, s, e).threads
    ensures
      var after := Next(c, s, e).threads[e.t];
      after.openedAt == s.clock + 1 && !BeforeOpening(after)
  {
  }

  lemma OpenedStays(c: Config, s: State, e: Event)
    requires Enabled(c, s, e) && !e.Open? && e.t in s.threads && e.t in Next(c, s, e).threads
    ensures Next(c, s, e).threads[e.t].openedAt == s.threads[e.t].openedAt
  {
  }

  lemma NotOpenStep(c: Config, s: State, e: Event)
    requires Enabled(c, s, e) && !e.Open? && e.t in s.threads && e.t in Next(c, s, e).threads
    ensures
      var before, after := s.threads[e.t], Next(c, s, e).threads[e.t];
      && (BeforeOpening(after) ==> BeforeOpening(before))
      && (!before.op.Rename? && AfterOpening(after) ==> AfterOpening(before))
  {
  }

  lemma OwnUnlocking(c: Config, s: State, e: Event)
    requires Enabled(c, s, e) && e.t in Next(c, s, e).threads
    ensures
      var after := Next(c, s, e).threads[e.t];
      after.pc == UNLOCKED ==>
        && e.t in s.threads && e == Unlock(e.t) && Holds(s.threads[e.t])
        && after == s.threads[e.t].(pc := UNLOCKED, unlockedAt := s.clock + 1)
  {
  }

  lemma MatchOp(c: Config, s: State, e: Event)
    requires Enabled(c, s, e) && e.Match?
    ensures e.t in s.threads && Compares(s.threads[e.t].op)
  {
  }

  // ---------- Every event keeps the invariant ----------

  lemma MatchAtStays(c: Config, events: seq<Event>, s: State, e: Event, n: nat, driver: int, op: Op)
    requires Enabled(c, s, e) && MatchAt(events, n, s, driver, op)
    ensures MatchAt(events + [e], n, Next(c, s, e), driver, op)
  {
    assert (events + [e])[n - 1] == events[n - 1];
    hide Enabled; hide Next;
    ThreadsStay(c, s, e, events[n - 1].t);
  }

  lemma PastWrites(c: Config, events: seq<Event>, s: State, e: Event, d: int)
    requires Inv(events, s) && Enabled(c, s, e)
    ensures forall k :: 0 <= k < |events| ==> (events + [e])[k] == events[k] && events[k].t in s.threads
    ensures forall k :: 0 <= k < |events| ==> (Writes(Next(c, s, e), events[k], d) <==> Writes(s, events[k], d))
  {
    hide Next; hide Enabled; hide Writes; hide ThreadOk; hide DeviceOk;
    forall k | 0 <= k < |events|
      ensures events[k].t in s.threads && (Writes(Next(c, s, e), events[k], d) <==> Writes(s, events[k], d))
    {
      assert events[k] in events;
      WritesStay(c, s, e, events[k], d);
    }
  }

  lemma WriteIsMarked(c: Config, events: seq<Event>, s: State, e: Event, d: int)
    requires Inv(events, s) && Enabled(c, s, e) && Writes(s, e, d) && d in s.devices && d in Next(c, s, e).devices
    ensures DeviceOk(events + [e], Next(c, s, e), d, Next(c, s, e).devices[d])
  {
    hide Enabled; hide Next; hide ThreadOk; hide LocksHeld;
    DeviceStep(c, s, e, d);
    if e.Match? {
      MatchOp(c, s, e);
    }
    assert (events + [e])[s.clock] == e;
    ThreadsStay(c, s, e, e.t);
  }

  lemma NoWriteKeeps(c: Config, events: seq<Event>, s: State, e: Event, d: int)
    requires Inv(events, s) && Enabled(c, s, e) && !Writes(s, e, d) && d in s.devices && d in Next(c, s, e).devices
    ensures DeviceOk(events + [e], Next(c, s, e), d, Next(c, s, e).devices[d])
  {
    hide Enabled; hide Next; hide ThreadOk; hide Writes; hide LocksHeld;
    DeviceStep(c, s, e, d);
    PastWrites(c, events, s, e, d);
    var dev := s.devices[d];
    assert DeviceOk(events, s, d, dev) && (events + [e])[s.clock] == e;
    if Writes(Next(c, s, e), e, d) {
      WriteIsNow(c, s, e, d);
    }
    if dev.result == MatchCode(Verify) {
      MatchAtStays(c, events, s, e, dev.written, d, Verify);
    }
    if dev.result == MatchCode(Identify) {
      MatchAtStays(c, events, s, e, dev.written, d, Identify);
    }
  }

  lemma OpenedStaysOk(c: Config, events: seq<Event>, s: State, e: Event, t: int)
    requires Inv(events, s) && Enabled(c, s, e) && t in Next(c, s, e).threads
    ensures OpenedOk(events + [e], Next(c, s, e), t, Next(c, s, e).threads[t])
  {
    hide Enabled; hide Next; hide DeviceOk; hide HolderOk; hide UnlockedOk; hide Compares; hide LocksHeld;
    OwnOpeningOf(c, s, e, t);
    OwnThreadKnown(c, events, s, e);
    DevicesAfter(c, s, e);
    assert (events + [e])[s.clock] == e;
    if t in s.threads {
      assert ThreadOk(events, s, t, s.threads[t]);
      var th := s.threads[t];
      ThreadsStay(c, s, e, t);
      assert th.openedAt > 0 ==> (events + [e])[th.openedAt - 1] == events[th.openedAt - 1];
    }
  }

  lemma OwnThreadKnown(c: Config, events: seq<Event>, s: State, e: Event)
    requires Inv(events, s) && Enabled(c, s, e)
    ensures e.t in s.threads ==> s.threads[e.t].driver in s.devices
  {
    if e.t in s.threads {
      assert ThreadOk(events, s, e.t, s.threads[e.t]);
    }
  }

  lemma OwnOpeningOf(c: Config, s: State, e: Event, t: int)
    requires Enabled(c, s, e) && t in Next(c, s, e).threads
    ensures t == e.t || (t in s.threads && Next(c, s, e).threads[t] == s.threads[t])
    ensures
      var after := Next(c, s, e).threads[t];
      if t !in s.threads then after.openedAt == 0 && after.pc == ARRIVED && after.driver in s.devices
      else if t == e.t && e.Open? then after.openedAt == s.clock + 1 && !BeforeOpening(after)
      else
        var before := s.threads[t];
        && after.openedAt == before.openedAt
        && (BeforeOpening(after) ==> BeforeOpening(before))
        && (!before.op.Rename? && AfterOpening(after) ==> AfterOpening(before))
  {
    hide Next; hide Enabled; hide Compares; hide AfterOpening; hide BeforeOpening;
    OnlyOwnThread(c, s, e);
    if e.t !in s.threads {
      ArrivalStep(c, s, e);
    } else if e.Open? {
      OpenStep(c, s, e);
    } else {
      OpenedStays(c, s, e);
      NotOpenStep(c, s, e);
    }
  }

  /** A write to the device of a holder is its own. */
  lemma HolderWrites(c: Config, events: seq<Event>, s: State, e: Event, t: int)
    requires Inv(events, s) && Enabled(c, s, e) && t in s.threads && Holds(s.threads[t])
    ensures Writes(Next(c, s, e), e, s.threads[t].driver) ==> e.t == t
  {
    hide Enabled; hide Next; hide ThreadOk; hide DeviceOk;
    if Writes(Next(c, s, e), e, s.threads[t].driver) {
      WriteIsNow(c, s, e, s.threads[t].driver);
      WriterHolds(c, s, e);
    }
  }

  lemma OwnWritesStay(c: Config, events: seq<Event>, s: State, e: Event, t: int, d: int, from: nat, to: nat)
    requires Inv(events, s) && Enabled(c, s, e) && to <= |events| && OwnWrites(events, s, t, d, from, to)
    ensures OwnWrites(events + [e], Next(c, s, e), t, d, from, to)
  {
    hide Enabled; hide Next; hide Inv; hide Writes;
    PastWrites(c, events, s, e, d);
  }

  lemma OwnWritesGrow(events: seq<Event>, s: State, e: Event, t: int, d: int, from: nat)
    requires OwnWrites(events + [e], s, t, d, from, |events|) && (Writes(s, e, d) ==> e.t == t)
    ensures OwnWrites(events + [e], s, t, d, from, |events| + 1)
  {
    hide Writes;
    assert (events + [e])[|events|] == e;
  }

  lemma HolderStaysOk(c: Config, events: seq<Event>, s: State, e: Event, t: int)
    requires Inv(events, s) && Enabled(c, s, e) && t in s.threads && t in Next(c, s, e).threads
    ensures HolderOk(events + [e], Next(c, s, e), t, Next(c, s, e).threads[t])
  {
    var before, after := s.threads[t], Next(c, s, e).threads[t];
    assert OpenedOk(events, s, t, before) && HolderOk(events, s, t, before) && s.clock == |events| by {
      assert ThreadOk(events, s, t, before);
      hide OpenedOk; hide HolderOk; hide UnlockedOk;
    }
    hide Enabled; hide Next; hide Inv; hide Compares; hide Writes; hide Holds; hide OwnWrites; hide AfterOpening;
    OwnOpeningOf(c, s, e, t);
    ThreadsStay(c, s, e, t);
    if Holds(before) {
      HolderWrites(c, events, s, e, t);
      if before.openedAt > 0 {
        OwnWritesStay(c, events, s, e, t, before.driver, before.openedAt - 1, |events|);
        OwnWritesGrow(events, Next(c, s, e), e, t, before.driver, before.openedAt - 1);
      }
      if t == e.t && e.Open? {
        NothingYet(events + [e], Next(c, s, e), t, before.driver, |events|);
        OwnWritesGrow(events, Next(c, s, e), e, t, before.driver, |events|);
      }
    } else {
      NewHolder(c, s, e, t);
    }
  }

  lemma NothingYet(events: seq<Event>, s: State, t: int, d: int, n: nat)
    requires n <= |events|
    ensures OwnWrites(events, s, t, d, n, n)
  {
  }

  /** A handler that has just got its lock has not opened the device. */
  lemma NewHolder(c: Config, s: State, e: Event, t: int)
    requires Enabled(c, s, e) && t in s.threads && !Holds(s.threads[t]) && t in Next(c, s, e).threads
    ensures Holds(Next(c, s, e).threads[t]) ==> s.threads[t].pc == ARRIVED && !e.Open?
  {
    if t != e.t {
      OthersUnchanged(c, s, e, t);
    }
  }

  lemma StillUnlocked(c: Config, events: seq<Event>, s: State, e: Event, t: int)
    requires Inv(events, s) && Enabled(c, s, e) && t in s.threads && t != e.t
    requires UnlockedOk(events, s, t, s.threads[t])
    ensures UnlockedOk(events + [e], Next(c, s, e), t, s.threads[t])
  {
    hide Enabled; hide Next; hide Inv; hide OwnWrites;
    var th := s.threads[t];
    if th.pc == UNLOCKED && th.openedAt > 0 {
      OwnWritesStay(c, events, s, e, t, th.driver, th.openedAt - 1, th.unlockedAt);
    }
  }

  lemma JustUnlocked(c: Config, events: seq<Event>, s: State, t: int)
    requires Inv(events, s) && t in s.threads && Enabled(c, s, Unlock(t)) && t in Next(c, s, Unlock(t)).threads
    requires OpenedOk(events, s, t, s.threads[t]) && HolderOk(events, s, t, s.threads[t]) && Holds(s.threads[t])
    requires Next(c, s, Unlock(t)).threads[t] == s.threads[t].(pc := UNLOCKED, unlockedAt := |events| + 1)
    ensures UnlockedOk(events + [Unlock(t)], Next(c, s, Unlock(t)), t, Next(c, s, Unlock(t)).threads[t])
  {
    hide Enabled; hide Next; hide Inv; hide OwnWrites; hide Holds;
    var th := s.threads[t];
    if th.openedAt > 0 {
      OwnWritesStay(c, events, s, Unlock(t), t, th.driver, th.openedAt - 1, |events|);
      OwnWritesGrow(events, Next(c, s, Unlock(t)), Unlock(t), t, th.driver, th.openedAt - 1);
    }
  }

  lemma UnlockedStaysOk(c: Config, events: seq<Event>, s: State, e: Event, t: int)
    requires Inv(events, s) && Enabled(c, s, e) && t in s.threads && t in Next(c, s, e).threads
    ensures UnlockedOk(events + [e], Next(c, s, e), t, Next(c, s, e).threads[t])
  {
    var before := s.threads[t];
    assert OpenedOk(events, s, t, before) && HolderOk(events, s, t, before) && UnlockedOk(events, s, t, before) &&
           s.clock == |events| by {
      assert ThreadOk(events, s, t, before);
      hide OpenedOk; hide HolderOk; hide UnlockedOk;
    }
    hide Enabled; hide Next; hide Inv; hide OwnWrites; hide Holds; hide OpenedOk; hide HolderOk;
    if t != e.t {
      OthersUnchanged(c, s, e, t);
      StillUnlocked(c, events, s, e, t);
    } else if Next(c, s, e).threads[t].pc == UNLOCKED {
      OwnUnlocking(c, s, e);
      JustUnlocked(c, events, s, t);
    }
  }

  lemma StepKeepsInv(c: Config, events: seq<Event>, s: State, e: Event)
    requires Inv(events, s) && Enabled(c, s, e)
    ensures Inv(events + [e], Next(c, s, e))
  {
    hide Enabled; hide Next; hide ThreadOk; hide DeviceOk; hide LocksHeld;
    var after := Next(c, s, e);
    OwnThreadKnown(c, events, s, e);
    DevicesAfter(c, s, e);
    LocksStayHeld(c, s, e);
    ThreadsGrow(c, s, e);
    forall d | d in after.devices ensures DeviceOk(events + [e], after, d, after.devices[d]) {
      if Writes(s, e, d) {
        WriteIsMarked(c, events, s, e, d);
      } else {
        NoWriteKeeps(c, events, s, e, d);
      }
    }
    forall t | t in after.threads ensures ThreadOk(events + [e], after, t, after.threads[t]) {
      ThreadStaysOk(c, events, s, e, t);
    }
  }

  lemma ThreadStaysOk(c: Config, events: seq<Event>, s: State, e: Event, t: int)
    requires Inv(events, s) && Enabled(c, s, e) && t in Next(c, s, e).threads
    ensures ThreadOk(events + [e], Next(c, s, e), t, Next(c, s, e).threads[t])
  {
    OwnOpeningOf(c, s, e, t);
    hide Inv; hide Enabled; hide Next; hide OwnWrites; hide Compares; hide OpenedOk;
    OpenedStaysOk(c, events, s, e, t);
    if t in s.threads {
      HolderStaysOk(c, events, s, e, t);
      UnlockedStaysOk(c, events, s, e, t);
    }
  }

  lemma InitialInv(c: Config, s: State)
    requires Initial(c, s)
    ensures Inv([], s)
  {
  }

  lemma {:induction false} InvHolds(c: Config, init: State, events: seq<Event>, states: seq<State>, n: nat)
    requires IsRun(c, init, events, states) && Initial(c, init) && n <= |events|
    ensures Inv(events[..n], states[n])
  {
    hide Enabled; hide Next; hide ThreadOk; hide DeviceOk; hide LocksHeld;
    if n == 0 {
      InitialInv(c, init);
      assert events[..0] == [];
    } else {
      InvHolds(c, init, events, states, n - 1);
      StepKeepsInv(c, events[..n - 1], states[n - 1], events[n - 1]);
      assert events[..n] == events[..n - 1] + [events[n - 1]];
    }
  }

  // ---------- Main results ----------

  /** Event `w` is the last one before event `n` that wrote to the device. */
  predicate LastWrite(events: seq<Event>, s: State, driver: int, w: nat, n: nat)
    requires n <= |events|
  {
    w < n && Writes(s, events[w], driver) && forall k :: w < k < n ==> !Writes(s, events[k], driver)
  }

  /** Before event `n`: the numbers of the handler's opening, of its unlock, after which it did
      nothing, and of the last write, which reported a match and does not precede the opening. */
  predicate History(events: seq<Event>, s: State, n: nat, t: int, i: nat, u: nat, w: nat)
    requires n <= |events| && t in s.threads
  {
    && i == s.threads[t].openedAt - 1 && i < n && events[i].Open? && events[i].t == t
    && u < n && events[u] == Unlock(t) && (forall k :: u < k < n ==> events[k].t != t)
    && i <= w < n && LastWrite(events, s, s.threads[t].driver, w, n)
    && MatchAt(events, w + 1, s, s.threads[t].driver, s.threads[t].op)
    && OwnWrites(events, s, t, s.threads[t].driver, i, u + 1)
  }

  lemma HistoryOf(past: seq<Event>, s: State, t: int) returns (i: nat, u: nat, w: nat)
    requires t in s.threads && s.threads[t].pc == UNLOCKED && s.threads[t].openedAt > 0
    requires OpenedOk(past, s, t, s.threads[t]) && UnlockedOk(past, s, t, s.threads[t])
    requires DeviceOk(past, s, s.threads[t].driver, s.devices[s.threads[t].driver])
    requires MatchAt(past, s.devices[s.threads[t].driver].written, s, s.threads[t].driver, s.threads[t].op)
    ensures History(past, s, |past|, t, i, u, w)
  {
    var th := s.threads[t];
    hide OwnWrites; hide MatchAt;
    i, u, w := th.openedAt - 1, th.unlockedAt - 1, s.devices[th.driver].written - 1;
    assert Writes(s, past[i], th.driver);
  }

  lemma InvSays(past: seq<Event>, s: State, t: int)
    requires Inv(past, s) && t in s.threads && s.threads[t].pc == UNLOCKED && Compares(s.threads[t].op)
    requires s.threads[t].driver in s.devices
    requires s.devices[s.threads[t].driver].result == MatchCode(s.threads[t].op)
    ensures OpenedOk(past, s, t, s.threads[t]) && UnlockedOk(past, s, t, s.threads[t]) && s.threads[t].openedAt > 0
    ensures DeviceOk(past, s, s.threads[t].driver, s.devices[s.threads[t].driver])
    ensures MatchAt(past, s.devices[s.threads[t].driver].written, s, s.threads[t].driver, s.threads[t].op)
  {
    assert ThreadOk(past, s, t, s.threads[t]);
    assert DeviceOk(past, s, s.threads[t].driver, s.devices[s.threads[t].driver]);
    hide Inv; hide OwnWrites; hide Writes; hide MatchAt; hide HolderOk;
  }

  lemma HistoryStays(events: seq<Event>, s: State, n: nat, t: int, i: nat, u: nat, w: nat)
    requires n <= |events| && t in s.threads && History(events[..n], s, n, t, i, u, w)
    ensures History(events, s, n, t, i, u, w)
  {
    hide Writes;
    assert forall k :: 0 <= k < n ==> events[..n][k] == events[k];
  }

  lemma SuccessHistory(c: Config, init: State, events: seq<Event>, states: seq<State>, n: nat, t: int)
    returns (i: nat, u: nat, w: nat)
    requires IsRun(c, init, events, states) && Initial(c, init)
    requires n < |events| && events[n] == Answer(t)
    requires t in states[n].threads && Compares(states[n].threads[t].op)
    requires t in states[n + 1].threads && states[n + 1].threads[t].pc == ANSWERED(Success)
    ensures History(events, states[n], n, t, i, u, w)
  {
    assert Enabled(c, states[n], Answer(t)) && states[n + 1] == Next(c, states[n], Answer(t)) by {
      hide Enabled; hide Next;
    }
    hide *;
    InvHolds(c, init, events, states, n);
    AnswerShown(c, states[n], t, states[n + 1]);
    InvSays(events[..n], states[n], t);
    i, u, w := HistoryOf(events[..n], states[n], t);
    HistoryStays(events, states[n], n, t, i, u, w);
  }

  lemma AnswerShown(c: Config, s: State, t: int, after: State)
    requires Enabled(c, s, Answer(t)) && after == Next(c, s, Answer(t)) && Compares(s.threads[t].op)
    requires t in after.threads && after.threads[t].pc == ANSWERED(Success)
    ensures s.threads[t].pc == UNLOCKED && s.threads[t].driver in s.devices
    ensures s.devices[s.threads[t].driver].result == MatchCode(s.threads[t].op)
  {
  }

  /** In every run, a handler that replies a success for a verification or an identification
      opened the device at some event, and after that a match was reported on this device, by
      a callback of the same kind of operation. */
  lemma SuccessFollowsMatch(c: Config, init: State, events: seq<Event>, states: seq<State>, n: nat, t: int)
    requires IsRun(c, init, events, states) && Initial(c, init)
    requires n < |events| && events[n] == Answer(t)
    requires t in states[n].threads && Compares(states[n].threads[t].op)
    requires t in states[n + 1].threads && states[n + 1].threads[t].pc == ANSWERED(Success)
    ensures exists i, j ::
      && 0 <= i < j < n
      && events[i].Open? && events[i].t == t
      && events[j].Match? && events[j].matched && events[j].t in states[n].threads
      && states[n].threads[events[j].t].driver == states[n].threads[t].driver
      && states[n].threads[events[j].t].op == states[n].threads[t].op
  {
    hide IsRun; hide Initial; hide OwnWrites; hide Writes;
    var i, u, w := SuccessHistory(c, init, events, states, n, t);
    assert i != w;
    assert 0 <= i < w < n;
  }

  /** In every run, the match behind a success reply is the handler's own if and only if no other
      handler wrote to the device between its unlock and its answer. */
  lemma OwnMatchDecides(c: Config, init: State, events: seq<Event>, states: seq<State>, n: nat, t: int)
    returns (u: nat, w: nat)
    requires IsRun(c, init, events, states) && Initial(c, init)
    requires n < |events| && events[n] == Answer(t)
    requires t in states[n].threads && Compares(states[n].threads[t].op)
    requires t in states[n + 1].threads && states[n + 1].threads[t].pc == ANSWERED(Success)
    ensures u < n && events[u] == Unlock(t)
    ensures w < n && LastWrite(events, states[n], states[n].threads[t].driver, w, n)
    ensures events[w].Match? && events[w].matched
    ensures events[w].t == t <==>
      forall k :: u < k < n && Writes(states[n], events[k], states[n].threads[t].driver) ==> events[k].t == t
  {
    var i;
    hide IsRun; hide Initial; hide Writes;
    i, u, w := SuccessHistory(c, init, events, states, n, t);
  }

  // ---------- The uid of an identification ----------

  predicate OwnNote(e: Event, t: int) {
    e.WriteNote? && e.t == t
  }

  predicate OwnFind(e: Event, t: int) {
    e.Match? && e.matched && e.t == t
  }

  /** Since its opening the handler has neither been stopped nor timed out. */
  predicate Undisturbed(events: seq<Event>, i: nat, n: nat, t: int)
    requires i < n <= |events| && events[i].Open?
  {
    events[i].opens && forall k :: i < k < n ==> !OwnNote(events[k], t)
  }

  /** The last match that the handler itself reported after its opening. */
  predicate LastFind(events: seq<Event>, i: nat, n: nat, t: int, k: nat)
    requires n <= |events|
  {
    i < k < n && OwnFind(events[k], t) && forall l :: k < l < n ==> !OwnFind(events[l], t)
  }

  predicate NoFind(events: seq<Event>, i: nat, n: nat, t: int)
    requires n <= |events|
  {
    forall k :: i < k < n ==> !OwnFind(events[k], t)
  }

  /** What an identification will return after events `i` to `n`. */
  ghost predicate Returns(events: seq<Event>, i: nat, n: nat, t: int, th: Thread)
    requires i < n <= |events| && events[i].Open?
  {
    if !Undisturbed(events, i, n, t) then th.found == None
    else
      th.found.Some? &&
      (NoFind(events, i, n, t) ==> th.found.value == th.uid) &&
      forall k: nat :: LastFind(events, i, n, t, k) ==> th.found.value == events[k].found
  }

  ghost predicate FoundOk(events: seq<Event>, t: int, th: Thread) {
    th.op.Identify? && 0 < th.openedAt <= |events| && events[th.openedAt - 1].Open? ==>
      Returns(events, th.openedAt - 1, |events|, t, th)
  }

  /** An event of the handler that does not open the device. */
  lemma FoundStep(c: Config, s: State, e: Event)
    requires Enabled(c, s, e) && e.t in s.threads && !e.Open? && e.t in Next(c, s, e).threads
    requires s.threads[e.t].op.Identify?
    ensures Next(c, s, e).threads[e.t].found ==
      if e.WriteNote? then None
      else if e.Match? && e.matched && s.threads[e.t].found.Some? then Some(e.found)
      else s.threads[e.t].found
  {
  }

  lemma FoundAtOpening(c: Config, s: State, e: Event)
    requires Enabled(c, s, e) && e.Open? && e.t in Next(c, s, e).threads && s.threads[e.t].op.Identify?
    requires s.threads[e.t].found == None
    ensures Next(c, s, e).threads[e.t].found == if e.opens then Some(s.threads[e.t].uid) else None
  {
  }

  /** Events of others change nothing. */
  lemma ReturnsStill(events: seq<Event>, i: nat, t: int, th: Thread, e: Event)
    requires i < |events| && events[i].Open? && Returns(events, i, |events|, t, th) && e.t != t
    ensures (events + [e])[i].Open? && Returns(events + [e], i, |events| + 1, t, th)
  {
    var n, more := |events|, events + [e];
    assert forall k :: 0 <= k < n ==> more[k] == events[k];
    assert Undisturbed(more, i, n + 1, t) <==> Undisturbed(events, i, n, t);
    assert NoFind(more, i, n + 1, t) <==> NoFind(events, i, n, t);
    forall k: nat | LastFind(more, i, n + 1, t, k) ensures LastFind(events, i, n, t, k) {
    }
  }

  lemma ReturnsNext(events: seq<Event>, i: nat, t: int, th: Thread, after: Thread, e: Event)
    requires i < |events| && events[i].Open? && Returns(events, i, |events|, t, th) && e.t == t
    requires after.uid == th.uid && after.found ==
      if e.WriteNote? then None else if e.Match? && e.matched && th.found.Some? then Some(e.found) else th.found
    ensures (events + [e])[i].Open? && Returns(events + [e], i, |events| + 1, t, after)
  {
    var n, more := |events|, events + [e];
    assert more[n] == e && forall k :: 0 <= k < n ==> more[k] == events[k];
    assert Undisturbed(more, i, n + 1, t) <==> Undisturbed(events, i, n, t) && !e.WriteNote?;
    assert NoFind(more, i, n + 1, t) <==> NoFind(events, i, n, t) && !(e.Match? && e.matched);
    forall k: nat | LastFind(more, i, n + 1, t, k) ensures k == n || LastFind(events, i, n, t, k) {
    }
  }

  lemma ReturnsFirst(events: seq<Event>, e: Event, t: int, th: Thread)
    requires e.Open? && th.found == if e.opens then Some(th.uid) else None
    ensures (events + [e])[|events|].Open? && Returns(events + [e], |events|, |events| + 1, t, th)
  {
    assert (events + [e])[|events|] == e;
    assert Undisturbed(events + [e], |events|, |events| + 1, t) <==> e.opens;
  }

  /** Until it opens the device, nothing is found. */
  predicate NothingFound(th: Thread) {
    BeforeOpening(th) ==> th.found == None
  }

  ghost predicate FoundInv(events: seq<Event>, s: State) {
    forall t :: t in s.threads ==> FoundOk(events, t, s.threads[t]) && NothingFound(s.threads[t])
  }

  lemma NothingFoundStays(c: Config, s: State, e: Event)
    requires Enabled(c, s, e) && e.t in Next(c, s, e).threads && (e.t in s.threads ==> NothingFound(s.threads[e.t]))
    ensures NothingFound(Next(c, s, e).threads[e.t])
  {
  }

  lemma OpensOnce(c: Config, s: State, e: Event)
    requires Enabled(c, s, e) && e.Open?
    ensures e.t in s.threads && BeforeOpening(s.threads[e.t])
  {
  }

  lemma InvKnows(events: seq<Event>, s: State, t: int)
    requires Inv(events, s) && FoundInv(events, s) && t in s.threads
    ensures s.clock == |events| && OpenedOk(events, s, t, s.threads[t])
    ensures FoundOk(events, t, s.threads[t]) && NothingFound(s.threads[t])
  {
    assert ThreadOk(events, s, t, s.threads[t]);
    hide FoundOk; hide OpenedOk; hide HolderOk; hide UnlockedOk; hide DeviceOk; hide LocksHeld; hide NothingFound;
  }

  lemma OpenedIs(events: seq<Event>, s: State, t: int, th: Thread)
    requires OpenedOk(events, s, t, th) && th.openedAt > 0
    ensures th.openedAt <= |events| && events[th.openedAt - 1].Open?
  {
  }

  lemma FoundIs(events: seq<Event>, t: int, th: Thread)
    requires FoundOk(events, t, th) && th.op.Identify? && 0 < th.openedAt <= |events| && events[th.openedAt - 1].Open?
    ensures Returns(events, th.openedAt - 1, |events|, t, th)
  {
  }

  lemma ReturnsIsFound(events: seq<Event>, t: int, th: Thread)
    requires 0 < th.openedAt <= |events| && events[th.openedAt - 1].Open?
    requires Returns(events, th.openedAt - 1, |events|, t, th)
    ensures FoundOk(events, t, th)
  {
  }

  lemma NeverOpened(events: seq<Event>, t: int, th: Thread)
    requires th.openedAt == 0
    ensures FoundOk(events, t, th)
  {
  }

  lemma OwnOpens(c: Config, events: seq<Event>, s: State, e: Event)
    requires Enabled(c, s, e) && e.Open? && e.t in s.threads && e.t in Next(c, s, e).threads && s.clock == |events|
    requires s.threads[e.t].op.Identify? && NothingFound(s.threads[e.t])
    ensures FoundOk(events + [e], e.t, Next(c, s, e).threads[e.t])
  {
    OpensOnce(c, s, e);
    OwnOpeningOf(c, s, e, e.t);
    ThreadIdentity(c, s, e);
    FoundAtOpening(c, s, e);
    hide Enabled; hide Next; hide Returns; hide FoundOk; hide Compares; hide AfterOpening; hide BeforeOpening;
    ReturnsFirst(events, e, e.t, Next(c, s, e).threads[e.t]);
    ReturnsIsFound(events + [e], e.t, Next(c, s, e).threads[e.t]);
  }

  lemma OwnFoundStays(c: Config, events: seq<Event>, s: State, e: Event)
    requires Inv(events, s) && FoundInv(events, s) && Enabled(c, s, e) && e.t in s.threads
    requires e.t in Next(c, s, e).threads && s.threads[e.t].op.Identify?
    ensures FoundOk(events + [e], e.t, Next(c, s, e).threads[e.t])
  {
    hide *;
    var t, before, after := e.t, s.threads[e.t], Next(c, s, e).threads[e.t];
    InvKnows(events, s, t);
    if e.Open? {
      OwnOpens(c, events, s, e);
    } else {
      ThreadIdentity(c, s, e);
      OpenedStays(c, s, e);
      FoundStep(c, s, e);
      if before.openedAt > 0 {
        OpenedIs(events, s, t, before);
        FoundIs(events, t, before);
        ReturnsNext(events, before.openedAt - 1, t, before, after, e);
        ReturnsIsFound(events + [e], t, after);
      } else {
        NeverOpened(events + [e], t, after);
      }
    }
  }

  lemma FoundStays(c: Config, events: seq<Event>, s: State, e: Event, t: int)
    requires Inv(events, s) && FoundInv(events, s) && Enabled(c, s, e) && t in Next(c, s, e).threads
    ensures FoundOk(events + [e], t, Next(c, s, e).threads[t])
  {
    hide *;
    OnlyOwnThread(c, s, e);
    var after := Next(c, s, e).threads[t];
    if t != e.t {
      InvKnows(events, s, t);
      if !after.op.Identify? {
        NotIdentifying(events + [e], t, after);
      } else if after.openedAt > 0 {
        OpenedIs(events, s, t, after);
        FoundIs(events, t, after);
        ReturnsStill(events, after.openedAt - 1, t, after, e);
        ReturnsIsFound(events + [e], t, after);
      } else {
        NeverOpened(events + [e], t, after);
      }
    } else if t !in s.threads {
      ArrivalStep(c, s, e);
      NeverOpened(events + [e], t, after);
    } else {
      ThreadIdentity(c, s, e);
      if s.threads[t].op.Identify? {
        OwnFoundStays(c, events, s, e);
      } else {
        NotIdentifying(events + [e], t, after);
      }
    }
  }

  lemma NotIdentifying(events: seq<Event>, t: int, th: Thread)
    requires !th.op.Identify?
    ensures FoundOk(events, t, th)
  {
  }

  lemma StepKeepsFound(c: Config, events: seq<Event>, s: State, e: Event)
    requires Inv(events, s) && FoundInv(events, s) && Enabled(c, s, e)
    ensures FoundInv(events + [e], Next(c, s, e))
  {
    hide Enabled; hide Next; hide Inv; hide FoundOk; hide NothingFound;
    ThreadsGrow(c, s, e);
    forall t | t in Next(c, s, e).threads
      ensures FoundOk(events + [e], t, Next(c, s, e).threads[t]) && NothingFound(Next(c, s, e).threads[t])
    {
      FoundStays(c, events, s, e, t);
      OnlyOwnThread(c, s, e);
      if t == e.t {
        NothingFoundStays(c, s, e);
      }
    }
  }

  lemma {:induction false} FoundHolds(c: Config, init: State, events: seq<Event>, states: seq<State>, n: nat)
    requires IsRun(c, init, events, states) && Initial(c, init) && n <= |events|
    ensures FoundInv(events[..n], states[n])
  {
    hide Enabled; hide Next; hide Inv; hide FoundOk;
    if n == 0 {
      assert events[..0] == [] && states[0].threads == map[];
    } else {
      InvHolds(c, init, events, states, n - 1);
      FoundHolds(c, init, events, states, n - 1);
      StepKeepsFound(c, events[..n - 1], states[n - 1], events[n - 1]);
      assert events[..n] == events[..n - 1] + [events[n - 1]];
    }
  }

  lemma ReturnsIn(events: seq<Event>, n: nat, i: nat, t: int, th: Thread)
    requires i < n <= |events| && events[i].Open? && Returns(events[..n], i, n, t, th)
    ensures Returns(events, i, n, t, th)
  {
    assert forall k :: 0 <= k < n ==> events[..n][k] == events[k];
    assert Undisturbed(events, i, n, t) <==> Undisturbed(events[..n], i, n, t);
    assert NoFind(events, i, n, t) <==> NoFind(events[..n], i, n, t);
    forall k: nat | LastFind(events, i, n, t, k) ensures LastFind(events[..n], i, n, t, k) {
    }
  }

  /** In every run, a success reply to an identification comes with a uid as follows: the one of
      the last match that the handler itself reported; the one that it was asked for if it had
      none; or -1 if it could not open the device, was stopped or timed out. */
  lemma IdentifiedUid(c: Config, init: State, events: seq<Event>, states: seq<State>, n: nat, t: int)
    returns (i: nat, w: nat)
    requires IsRun(c, init, events, states) && Initial(c, init)
    requires n < |events| && events[n] == Answer(t)
    requires t in states[n].threads && states[n].threads[t].op.Identify?
    requires t in states[n + 1].threads && states[n + 1].threads[t].pc == ANSWERED(Success)
    ensures i < n && events[i].Open? && events[i].t == t
    ensures LastWrite(events, states[n], states[n].threads[t].driver, w, n)
    ensures
      var uid := AnsweredUid(states[n + 1].threads[t]);
      && (!Undisturbed(events, i, n, t) ==> uid == -1)
      && (Undisturbed(events, i, n, t) && NoFind(events, i, n, t) ==> uid == states[n].threads[t].uid)
      && (forall k: nat :: Undisturbed(events, i, n, t) && LastFind(events, i, n, t, k) ==> uid == events[k].found)
      && (events[w].t == t ==> LastFind(events, i, n, t, w))
  {
    var th := states[n].threads[t];
    assert Enabled(c, states[n], Answer(t)) && states[n + 1] == Next(c, states[n], Answer(t)) by {
      hide Enabled; hide Next;
    }
    var u;
    hide *;
    AnswerKeepsFound(c, states[n], t);
    IdentifyCompares(th.op);
    i, u, w := SuccessHistory(c, init, events, states, n, t);
    InvHolds(c, init, events, states, n);
    FoundHolds(c, init, events, states, n);
    InvKnows(events[..n], states[n], t);
    HistoryTells(events, states[n], n, t, i, u, w);
    FoundIs(events[..n], t, th);
    ReturnsIn(events, n, i, t, th);
    ReturnsTells(events, i, n, t, th);
    SameAnswer(th, states[n + 1].threads[t]);
  }

  lemma IdentifyCompares(op: Op)
    requires op.Identify?
    ensures Compares(op)
  {
  }

  lemma HistoryTells(events: seq<Event>, s: State, n: nat, t: int, i: nat, u: nat, w: nat)
    requires n <= |events| && t in s.threads && History(events, s, n, t, i, u, w)
    ensures i < n && i + 1 == s.threads[t].openedAt && events[i].Open? && events[i].t == t
    ensures events[..n][i] == events[i]
    ensures LastWrite(events, s, s.threads[t].driver, w, n)
    ensures events[w].t == t ==> LastFind(events, i, n, t, w)
  {
    hide OwnWrites;
  }

  lemma ReturnsTells(events: seq<Event>, i: nat, n: nat, t: int, th: Thread)
    requires i < n <= |events| && events[i].Open? && Returns(events, i, n, t, th)
    ensures !Undisturbed(events, i, n, t) ==> AnsweredUid(th) == -1
    ensures Undisturbed(events, i, n, t) && NoFind(events, i, n, t) ==> AnsweredUid(th) == th.uid
    ensures forall k: nat :: Undisturbed(events, i, n, t) && LastFind(events, i, n, t, k) ==>
      AnsweredUid(th) == events[k].found
  {
  }

  lemma SameAnswer(th: Thread, after: Thread)
    requires after.found == th.found
    ensures AnsweredUid(after) == AnsweredUid(th)
  {
  }

  lemma AnswerKeepsFound(c: Config, s: State, t: int)
    requires Enabled(c, s, Answer(t)) && t in Next(c, s, Answer(t)).threads
    ensures Next(c, s, Answer(t)).threads[t].found == s.threads[t].found
  {
  }

  // ---------- A match of another handler ----------

  lemma ArriveAndLock(c: Config, s: State, t: int, op: Op, uid: int, d: int)
    requires Compares(op) && Ready(c, s, d) && t !in s.threads
    ensures
      var arrive, lock := Arrive(t, op, d, uid), TryLock(t);
      Enabled(c, s, arrive) &&
      var s1 := Next(c, s, arrive);
      Enabled(c, s1, lock) &&
      var s2 := Next(c, s1, lock);
      && s2.threads == s.threads[t := Thread(op, d, uid, READY, -1, false, {}, 0, 0, None)] && d in s2.devices
  {
    var s1 := Next(c, s, Arrive(t, op, d, uid));
    assert s1.threads[t] == Thread(op, d, uid, ARRIVED, -1, false, {}, 0, 0, None);
  }

  /** The handler compares on the device, and its match callback has come, with its own uid. */
  predicate Compared(s: State, t: int, op: Op, uid: int, d: int, matched: bool) {
    && At(s, t, RUNNING) && s.threads[t].op == op && s.threads[t].driver == d && d in s.devices
    && s.devices[d].result == MatchCode(op) + (if matched then 0 else 1)
    && (op.Identify? ==> s.threads[t].found == Some(uid))
  }

  lemma OpenAndMatch(c: Config, s: State, t: int, op: Op, uid: int, d: int, matched: bool)
    requires Compares(op) && c.enabled(d) && d in s.devices
    requires t in s.threads && s.threads[t] == Thread(op, d, uid, READY, -1, false, {}, 0, 0, None)
    ensures
      Enabled(c, s, Open(t, true)) &&
      var s1 := Next(c, s, Open(t, true));
      Enabled(c, s1, Match(t, matched, uid)) &&
      var s2 := Next(c, s1, Match(t, matched, uid));
      Compared(s2, t, op, uid, d, matched) && s2.threads == s.threads[t := s2.threads[t]]
  {
    var s1 := Next(c, s, Open(t, true));
    var found := if op.Identify? then Some(uid) else None;
    assert s1.threads[t] == s.threads[t].(pc := RUNNING, openedAt := s.clock + 1, found := found);
  }

  lemma LockRun(c: Config, init: State, events: seq<Event>, states: seq<State>, t: int, op: Op, uid: int, d: int)
    returns (states2: seq<State>)
    requires IsRun(c, init, events, states) && Ready(c, states[|events|], d) && t !in states[|events|].threads
    requires Compares(op)
    ensures IsRun(c, init, events + [Arrive(t, op, d, uid)] + [TryLock(t)], states2)
    ensures
      var before, after := states[|events|], states2[|events| + 2];
      && after.threads == before.threads[t := Thread(op, d, uid, READY, -1, false, {}, 0, 0, None)]
      && d in after.devices
  {
    var s := states[|events|];
    var arrive, lock := Arrive(t, op, d, uid), TryLock(t);
    ArriveAndLock(c, s, t, op, uid, d);
    var s1 := Next(c, s, arrive);
    hide Next; hide Enabled;
    RunExtends(c, init, events, states, arrive);
    RunExtends(c, init, events + [arrive], states + [s1], lock);
    states2 := states + [s1] + [Next(c, s1, lock)];
  }

  lemma MatchRun(c: Config, init: State, events: seq<Event>, states: seq<State>, t: int, op: Op, uid: int, d: int,
                 matched: bool)
    returns (states2: seq<State>)
    requires IsRun(c, init, events, states) && c.enabled(d) && d in states[|events|].devices && Compares(op)
    requires t in states[|events|].threads
    requires states[|events|].threads[t] == Thread(op, d, uid, READY, -1, false, {}, 0, 0, None)
    ensures IsRun(c, init, events + [Open(t, true)] + [Match(t, matched, uid)], states2)
    ensures Compared(states2[|events| + 2], t, op, uid, d, matched)
    ensures states2[|events| + 2].threads == states[|events|].threads[t := states2[|events| + 2].threads[t]]
  {
    var s := states[|events|];
    OpenAndMatch(c, s, t, op, uid, d, matched);
    var s1 := Next(c, s, Open(t, true));
    hide Next; hide Enabled;
    RunExtends(c, init, events, states, Open(t, true));
    RunExtends(c, init, events + [Open(t, true)], states + [s1], Match(t, matched, uid));
    states2 := states + [s1] + [Next(c, s1, Match(t, matched, uid))];
  }

  lemma CompareRun(c: Config, init: State, events: seq<Event>, states: seq<State>, t: int, op: Op, uid: int, d: int,
                   matched: bool)
    returns (events2: seq<Event>, states2: seq<State>)
    requires IsRun(c, init, events, states) && Ready(c, states[|events|], d) && t !in states[|events|].threads
    requires Compares(op)
    ensures IsRun(c, init, events2, states2) && Compared(states2[|events2|], t, op, uid, d, matched)
    ensures events2 == events + [Arrive(t, op, d, uid), TryLock(t), Open(t, true), Match(t, matched, uid)]
    ensures states2[|events2|].threads ==
      states[|events|].threads[t := states2[|events2|].threads[t]]
  {
    assert c.enabled(d);
    states2 := LockRun(c, init, events, states, t, op, uid, d);
    hide IsRun; hide Ready; hide Compared; hide Compares;
    events2 := events + [Arrive(t, op, d, uid)] + [TryLock(t)];
    states2 := MatchRun(c, init, events2, states2, t, op, uid, d, matched);
    events2 := events2 + [Open(t, true)] + [Match(t, matched, uid)];
  }

  /** The handler has released the device and has yet to answer. */
  predicate Released(s: State, t: int, op: Op, uid: int, d: int) {
    && At(s, t, UNLOCKED) && s.threads[t].op == op && s.threads[t].driver == d
    && (op.Identify? ==> s.threads[t].found == Some(uid))
  }

  lemma ReleaseRun(c: Config, init: State, events: seq<Event>, states: seq<State>, t: int, op: Op, uid: int, d: int,
                   matched: bool)
    returns (events2: seq<Event>, states2: seq<State>)
    requires IsRun(c, init, events, states) && Compared(states[|events|], t, op, uid, d, matched) && Compares(op)
    requires d in c.drivers && c.enabled(d)
    ensures IsRun(c, init, events2, states2) && Ready(c, states2[|events2|], d)
    ensures events2 == events + [Return(t), Close(t, true), Unlock(t)]
    ensures states2[|events2|].threads.Keys == states[|events|].threads.Keys
    ensures Released(states2[|events2|], t, op, uid, d)
  {
    var s := states[|events|];
    ReturnAndUnlock(c, s, t, d);
    var s1 := Next(c, s, Return(t));
    var s2 := Next(c, s1, Close(t, true));
    hide Next; hide Enabled;
    RunExtends(c, init, events, states, Return(t));
    RunExtends(c, init, events + [Return(t)], states + [s1], Close(t, true));
    RunExtends(c, init, events + [Return(t)] + [Close(t, true)], states + [s1] + [s2], Unlock(t));
    events2 := events + [Return(t)] + [Close(t, true)] + [Unlock(t)];
    states2 := states + [s1] + [s2] + [Next(c, s2, Unlock(t))];
  }

  lemma AnswerRun(c: Config, init: State, events: seq<Event>, states: seq<State>, t: int, op: Op, uid: int, d: int)
    returns (states2: seq<State>)
    requires IsRun(c, init, events, states) && Released(states[|events|], t, op, uid, d) && Compares(op)
    requires d in states[|events|].devices && states[|events|].devices[d].result == MatchCode(op)
    ensures IsRun(c, init, events + [Answer(t)], states2)
    ensures At(states2[|events| + 1], t, ANSWERED(Success)) && states2[|events| + 1].threads[t].op == op
    ensures op.Identify? ==> AnsweredUid(states2[|events| + 1].threads[t]) == uid
  {
    assert Enabled(c, states[|events|], Answer(t));
    states2 := states + [Next(c, states[|events|], Answer(t))];
    RunExtends(c, init, events, states, Answer(t));
  }

  lemma StartsReady(c: Config, init: State, d: int)
    requires Initial(c, init) && d in c.drivers && c.enabled(d)
    ensures Ready(c, init, d) && init.threads.Keys == {}
  {
  }

  /** In a run from the start, handler 1 compares without a match and releases the device, handler
      2 compares with one, and handler 1 answers a success: it reads the result only then. To an
      identification it answers with the uid that it was asked for. */
  lemma MatchOfAnother(c: Config, init: State, op: Op, d: int, uid: int, other: int)
    returns (events: seq<Event>, states: seq<State>)
    requires Initial(c, init) && d in c.drivers && c.enabled(d) && Compares(op)
    ensures IsRun(c, init, events, states)
    ensures events ==
      [Arrive(1, op, d, uid), TryLock(1), Open(1, true), Match(1, false, uid), Return(1), Close(1, true), Unlock(1),
       Arrive(2, op, d, other), TryLock(2), Open(2, true), Match(2, true, other), Answer(1)]
    ensures At(states[12], 1, ANSWERED(Success)) && states[12].threads[1].op == op
    ensures op.Identify? ==> AnsweredUid(states[12].threads[1]) == uid
  {
    StartsReady(c, init, d);
    RunStarts(c, init);
    assert d in c.drivers && c.enabled(d);
    hide *;
    events, states := CompareRun(c, init, [], [init], 1, op, uid, d, false);
    events, states := ReleaseRun(c, init, events, states, 1, op, uid, d, false);
    events, states := CompareRun(c, init, events, states, 2, op, other, d, true);
    states := AnswerRun(c, init, events, states, 1, op, uid, d);
    events := events + [Answer(1)];
  }
}
