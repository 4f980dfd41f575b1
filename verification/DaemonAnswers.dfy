/** What a handler answers, in terms of the events of a run: which write to the device came last
    before its answer, and who held the lock when it was refused. */
module DaemonAnswers {
  import opened FeatureRows
  import opened Daemon
  import opened DaemonReplies

  // ---------- What a write shows ----------

  /** The events that write a result whose detail is 0. */
  predicate IsGood(e: Event) {
    || (e.Open? && e.opens)
    || (e.Match? && e.matched)
    || e.Template?
    || (e.WriteNote? && e.note == COMPLETED)
  }

  predicate IsMatch(op: Op, e: Event, matched: bool) {
    Compares(op) && e.Match? && e.matched == matched
  }

  /** The result after an event of a handler with this operation. */
  predicate Shows(op: Op, e: Event, result: int) {
    && (result % 100 == 0 <==> IsGood(e))
    && (result == 300 <==> op.Verify? && IsMatch(op, e, true))
    && (result == 301 <==> op.Verify? && IsMatch(op, e, false))
    && (result == 400 <==> op.Identify? && IsMatch(op, e, true))
    && (result == 401 <==> op.Identify? && IsMatch(op, e, false))
    && (result == 900 <==> op.Rename? && e.WriteNote? && e.note == COMPLETED)
  }

  predicate ResultOk(events: seq<Event>, s: State, dev: DeviceState) {
    if dev.written == 0 then dev.result == 0
    else
      && dev.written <= |events| && events[dev.written - 1].t in s.threads
      && Shows(s.threads[events[dev.written - 1].t].op, events[dev.written - 1], dev.result)
  }

  /** While a clean operates its device, the device is cleaning or idle: its notes are relative to that. */
  predicate CleanOk(s: State, th: Thread) {
    th.op.Clean? && th.pc == RUNNING && th.driver in s.devices ==>
      (s.devices[th.driver].status == 0 || s.devices[th.driver].status == 701)
  }

  ghost predicate AnswerInv(events: seq<Event>, s: State) {
    && (forall d :: d in s.devices ==> ResultOk(events, s, s.devices[d]))
    && (forall t :: t in s.threads ==> CleanOk(s, s.threads[t]))
  }

  predicate HasDetail(result: int, detail: int) {
    result % 100 == detail
  }

  lemma RelativeDetail(status: int, detail: int)
    requires 0 <= detail < 100
    ensures HasDetail(Relative(status, detail), detail)
  {
  }

  lemma CodeDetail(op: Op, detail: int)
    requires 0 <= detail < 100
    ensures HasDetail(100 * TypeOf(op) + detail, detail)
  {
  }

  function DetailOf(note: Note): int {
    match note case COMPLETED => 0 case MISSED => 1 case STOPPED => 3 case TIMED_OUT => 4 case UNSUPPORTED => 2
  }

  lemma NoteDetail(op: Op, status: int, note: Note)
    ensures HasDetail(NoteResult(op, status, note), DetailOf(note))
  {
    hide HasDetail; hide Relative; hide TypeOf;
    var detail := DetailOf(note);
    RelativeDetail(status, detail);
    RelativeDetail(IDLE, detail);
    CodeDetail(op, detail);
  }

  lemma DetailTells(result: int, detail: int)
    requires HasDetail(result, detail) && 0 <= detail < 100
    ensures result % 100 == 0 <==> detail == 0
    ensures detail != 0 ==> result != 300 && result != 400 && result != 900
    ensures detail != 1 ==> result != 301 && result != 401
  {
  }

  lemma CompletedCode(op: Op, status: int)
    requires MayWrite(op, COMPLETED)
    ensures
      var result := NoteResult(op, status, COMPLETED);
      result != 300 && result != 400 && (result == 900 <==> op.Rename?)
  {
  }

  lemma MissedCode(op: Op, status: int)
    requires MayWrite(op, MISSED) && (op.Clean? ==> status == 0 || status == 701)
    ensures NoteResult(op, status, MISSED) != 301 && NoteResult(op, status, MISSED) != 401
  {
  }

  lemma NoteShows(op: Op, status: int, note: Note)
    requires MayWrite(op, note) && (op.Clean? ==> status == 0 || status == 701)
    ensures
      var result := NoteResult(op, status, note);
      && (result % 100 == 0 <==> note == COMPLETED)
      && result != 300 && result != 301 && result != 400 && result != 401
      && (result == 900 <==> op.Rename? && note == COMPLETED)
  {
    hide NoteResult; hide HasDetail; hide MayWrite;
    NoteDetail(op, status, note);
    DetailTells(NoteResult(op, status, note), DetailOf(note));
    if note == COMPLETED {
      CompletedCode(op, status);
    } else if note == MISSED {
      MissedCode(op, status);
    }
  }

  lemma WriteShows(c: Config, s: State, e: Event)
    requires Enabled(c, s, e) && IsWrite(e) && e.t in s.threads && CleanOk(s, s.threads[e.t])
    requires s.threads[e.t].driver in s.devices && s.threads[e.t].driver in Next(c, s, e).devices
    ensures Shows(s.threads[e.t].op, e, Next(c, s, e).devices[s.threads[e.t].driver].result)
  {
    if e.WriteNote? {
      NoteShows(s.threads[e.t].op, s.devices[s.threads[e.t].driver].status, e.note);
    }
  }

  // ---------- Every event keeps the invariant ----------

  lemma ResultWritten(c: Config, events: seq<Event>, s: State, e: Event, d: int)
    requires Inv(events, s) && AnswerInv(events, s) && Enabled(c, s, e) && d in s.devices && Writes(s, e, d)
    requires d in Next(c, s, e).devices
    ensures ResultOk(events + [e], Next(c, s, e), Next(c, s, e).devices[d])
  {
    assert CleanOk(s, s.threads[e.t]) && s.clock == |events|;
    assert (events + [e])[|events|] == e;
    hide Enabled; hide Next; hide Inv; hide CleanOk; hide Shows;
    WriteShows(c, s, e);
    DeviceStep(c, s, e, d);
    ThreadsStay(c, s, e, e.t);
  }

  lemma ResultKept(c: Config, events: seq<Event>, s: State, e: Event, d: int)
    requires Inv(events, s) && AnswerInv(events, s) && Enabled(c, s, e) && d in s.devices && !Writes(s, e, d)
    requires d in Next(c, s, e).devices
    ensures ResultOk(events + [e], Next(c, s, e), Next(c, s, e).devices[d])
  {
    assert ResultOk(events, s, s.devices[d]);
    hide *;
    DeviceStep(c, s, e, d);
    ResultStays(c, events, s, e, s.devices[d]);
  }

  lemma ResultStays(c: Config, events: seq<Event>, s: State, e: Event, dev: DeviceState)
    requires Enabled(c, s, e) && ResultOk(events, s, dev)
    ensures ResultOk(events + [e], Next(c, s, e), dev)
  {
    hide Enabled; hide Next; hide Shows;
    if dev.written > 0 {
      assert (events + [e])[dev.written - 1] == events[dev.written - 1];
      ThreadsStay(c, s, e, events[dev.written - 1].t);
    }
  }

  lemma CleaningStays(c: Config, s: State, e: Event)
    requires Enabled(c, s, e) && e.t in s.threads && CleanOk(s, s.threads[e.t]) && e.t in Next(c, s, e).threads
    requires s.threads[e.t].driver in s.devices
    ensures CleanOk(Next(c, s, e), Next(c, s, e).threads[e.t])
  {
  }

  lemma ArrivedIsClean(c: Config, s: State, e: Event)
    requires Enabled(c, s, e) && e.t !in s.threads && e.t in Next(c, s, e).threads
    ensures CleanOk(Next(c, s, e), Next(c, s, e).threads[e.t])
  {
    hide Enabled; hide Next;
    ArrivalStep(c, s, e);
  }

  /** Nobody else writes to the device of a clean. */
  lemma OtherCleanStays(c: Config, events: seq<Event>, s: State, e: Event, t: int)
    requires Inv(events, s) && Enabled(c, s, e) && t in s.threads && t != e.t && CleanOk(s, s.threads[t])
    ensures CleanOk(Next(c, s, e), s.threads[t])
  {
    var th := s.threads[t];
    hide Enabled; hide Next; hide Inv; hide Writes;
    if th.op.Clean? && th.pc == RUNNING && th.driver in Next(c, s, e).devices {
      OwnThreadKnown(c, events, s, e);
      DevicesAfter(c, s, e);
      HolderWrites(c, events, s, e, t);
      if e.t in s.threads {
        WritesStay(c, s, e, e, th.driver);
      } else {
        NotThere(s, e, th.driver);
      }
      DeviceStep(c, s, e, th.driver);
    }
  }

  lemma NotThere(s: State, e: Event, d: int)
    requires e.t !in s.threads
    ensures !Writes(s, e, d)
  {
  }

  lemma StepKeepsAnswers(c: Config, events: seq<Event>, s: State, e: Event)
    requires Inv(events, s) && AnswerInv(events, s) && Enabled(c, s, e)
    ensures AnswerInv(events + [e], Next(c, s, e))
  {
    hide Enabled; hide Next; hide Inv; hide CleanOk; hide ResultOk; hide Writes;
    var after := Next(c, s, e);
    OwnThreadKnown(c, events, s, e);
    DevicesAfter(c, s, e);
    OnlyOwnThread(c, s, e);
    forall d | d in after.devices ensures ResultOk(events + [e], after, after.devices[d]) {
      if Writes(s, e, d) {
        ResultWritten(c, events, s, e, d);
      } else {
        ResultKept(c, events, s, e, d);
      }
    }
    forall t | t in after.threads ensures CleanOk(after, after.threads[t]) {
      if t != e.t {
        OtherCleanStays(c, events, s, e, t);
      } else if t in s.threads {
        CleaningStays(c, s, e);
      } else {
        ArrivedIsClean(c, s, e);
      }
    }
  }

  lemma {:induction false} AnswersHold(c: Config, init: State, events: seq<Event>, states: seq<State>, n: nat)
    requires IsRun(c, init, events, states) && Initial(c, init) && n <= |events|
    ensures AnswerInv(events[..n], states[n])
  {
    hide Enabled; hide Next; hide Inv; hide ResultOk; hide CleanOk;
    if n == 0 {
      assert events[..0] == [] && states[0].threads == map[];
      assert forall d :: d in states[0].devices ==> ResultOk([], states[0], states[0].devices[d]) by {
        InitialResults(c, init);
      }
    } else {
      InvHolds(c, init, events, states, n - 1);
      AnswersHold(c, init, events, states, n - 1);
      StepKeepsAnswers(c, events[..n - 1], states[n - 1], events[n - 1]);
      assert events[..n] == events[..n - 1] + [events[n - 1]];
    }
  }

  lemma InitialResults(c: Config, s: State)
    requires Initial(c, s)
    ensures forall d :: d in s.devices ==> ResultOk([], s, s.devices[d])
  {
  }

  // ---------- Main results ----------

  /** Event `w` is the last write to the device before event `n`; -1 stands for none. */
  predicate LastWriteIs(events: seq<Event>, s: State, d: int, w: int, n: nat)
    requires n <= |events|
  {
    if w == -1 then forall k :: 0 <= k < n ==> !Writes(s, events[k], d)
    else 0 <= w < n && LastWrite(events, s, d, w, n)
  }

  /** The write came from a handler with this operation, and shows this outcome of a comparison. */
  predicate WasMatch(events: seq<Event>, s: State, w: int, op: Op, matched: bool) {
    0 <= w < |events| && events[w].Match? && events[w].matched == matched
    && events[w].t in s.threads && s.threads[events[w].t].op == op
  }

  /** A rename that was completed. */
  predicate WasRenamed(events: seq<Event>, s: State, w: int) {
    0 <= w < |events| && events[w].WriteNote? && events[w].note == COMPLETED
    && events[w].t in s.threads && s.threads[events[w].t].op.Rename?
  }

  lemma LastWriteOf(past: seq<Event>, s: State, t: int) returns (w: int)
    requires Inv(past, s) && AnswerInv(past, s) && t in s.threads && s.threads[t].driver in s.devices
    ensures -1 <= w < |past| && LastWriteIs(past, s, s.threads[t].driver, w, |past|)
    ensures
      var result := s.devices[s.threads[t].driver].result;
      if w == -1 then result == 0
      else past[w].t in s.threads && Shows(s.threads[past[w].t].op, past[w], result)
    ensures s.threads[t].pc == UNLOCKED && !s.threads[t].op.Rename? ==> w >= 0
  {
    var th := s.threads[t];
    var dev := s.devices[th.driver];
    w := dev.written - 1;
    assert DeviceOk(past, s, th.driver, dev) && ResultOk(past, s, dev);
    assert OpenedOk(past, s, t, th) by {
      assert ThreadOk(past, s, t, th);
      hide OpenedOk; hide HolderOk; hide UnlockedOk;
    }
    hide Inv; hide AnswerInv; hide Shows; hide MatchAt;
    if th.openedAt > 0 {
      assert Writes(s, past[th.openedAt - 1], th.driver);
    }
  }

  lemma LastWriteStays(events: seq<Event>, s: State, d: int, w: int, n: nat)
    requires n <= |events| && LastWriteIs(events[..n], s, d, w, n)
    ensures LastWriteIs(events, s, d, w, n)
  {
    hide Writes;
    assert forall k :: 0 <= k < n ==> events[..n][k] == events[k];
  }

  /** The reply in terms of the last write that the device has seen. */
  lemma ReplyTells(op: Op, writer: Op, e: Event, result: int)
    requires Shows(writer, e, result)
    ensures Compares(op) ==>
      var reply := ReplyFor(op, result);
      && (reply == Success <==> writer == op && IsMatch(op, e, true))
      && (reply == NoMatch <==> writer == op && IsMatch(op, e, false))
      && (reply == Error <==> !(writer == op && (IsMatch(op, e, true) || IsMatch(op, e, false))))
    ensures op.Rename? ==>
      ReplyFor(op, result) == if writer.Rename? && e.WriteNote? && e.note == COMPLETED then Success else Error
    ensures op.Enroll? || op.Clean? ==> ReplyFor(op, result) == if IsGood(e) then Success else Error
  {
  }

  lemma AnswerIs(c: Config, s: State, t: int)
    requires Enabled(c, s, Answer(t)) && t in Next(c, s, Answer(t)).threads
    ensures t in s.threads && s.threads[t].pc == UNLOCKED && s.threads[t].driver in s.devices
    ensures Next(c, s, Answer(t)).threads[t].pc ==
      ANSWERED(ReplyFor(s.threads[t].op, s.devices[s.threads[t].driver].result))
  {
  }

  /** In every run, the last write to the device before an answer decides it. A verification or an
      identification is a success or without a match as a match callback of the same kind of
      operation said, and an error if anything else came last. A rename is a success if a completed
      rename came last; an enrolment or a clean if any write of a success did. */
  lemma LastWriteDecides(c: Config, init: State, events: seq<Event>, states: seq<State>, n: nat, t: int)
    returns (w: int)
    requires IsRun(c, init, events, states) && Initial(c, init)
    requires n < |events| && events[n] == Answer(t) && t in states[n].threads && t in states[n + 1].threads
    ensures LastWriteIs(events, states[n], states[n].threads[t].driver, w, n)
    ensures !states[n].threads[t].op.Rename? ==> w >= 0
    ensures
      var s, op, pc := states[n], states[n].threads[t].op, states[n + 1].threads[t].pc;
      && (Compares(op) ==>
            && (pc == ANSWERED(Success) <==> WasMatch(events, s, w, op, true))
            && (pc == ANSWERED(NoMatch) <==> WasMatch(events, s, w, op, false))
            && (pc == ANSWERED(Error) <==> !WasMatch(events, s, w, op, true) && !WasMatch(events, s, w, op, false)))
      && (op.Rename? ==> pc == ANSWERED(if WasRenamed(events, s, w) then Success else Error))
      && (op.Enroll? || op.Clean? ==> pc == ANSWERED(if w >= 0 && IsGood(events[w]) then Success else Error))
  {
    assert Enabled(c, states[n], Answer(t)) && states[n + 1] == Next(c, states[n], Answer(t)) by {
      hide Enabled; hide Next;
    }
    hide *;
    InvHolds(c, init, events, states, n);
    AnswersHold(c, init, events, states, n);
    AnswerIs(c, states[n], t);
    w := LastWriteOf(events[..n], states[n], t);
    LastWriteStays(events, states[n], states[n].threads[t].driver, w, n);
    AnswerTells(events, states[n], t, w, states[n].devices[states[n].threads[t].driver].result);
  }

  lemma AnswerTells(events: seq<Event>, s: State, t: int, w: int, result: int)
    requires t in s.threads && -1 <= w < |events|
    requires if w == -1 then result == 0 && s.threads[t].op.Rename?
             else events[w].t in s.threads && Shows(s.threads[events[w].t].op, events[w], result)
    ensures
      var op, reply := s.threads[t].op, ReplyFor(s.threads[t].op, result);
      && (Compares(op) ==>
            && (reply == Success <==> WasMatch(events, s, w, op, true))
            && (reply == NoMatch <==> WasMatch(events, s, w, op, false))
            && (reply == Error <==> !WasMatch(events, s, w, op, true) && !WasMatch(events, s, w, op, false)))
      && (op.Rename? ==> reply == if WasRenamed(events, s, w) then Success else Error)
      && (op.Enroll? || op.Clean? ==> reply == if w >= 0 && IsGood(events[w]) then Success else Error)
  {
    if w >= 0 {
      ReplyTells(s.threads[t].op, s.threads[events[w].t].op, events[w], result);
      hide Shows; hide ReplyFor;
    }
  }

  // ---------- Who is refused ----------

  /** Every lock names a handler between its lock and its unlock. */
  predicate LocksTight(s: State) {
    forall d :: d in s.locks ==>
      s.locks[d] in s.threads && Holds(s.threads[s.locks[d]]) && s.threads[s.locks[d]].driver == d
  }

  lemma OwnKeepsHolding(c: Config, s: State, e: Event)
    requires Enabled(c, s, e) && e.t in s.threads && e.t in Next(c, s, e).threads
    requires (Holds(s.threads[e.t]) && !e.Unlock?) || (e.TryLock? && s.threads[e.t].driver !in s.locks)
    ensures Holds(Next(c, s, e).threads[e.t])
  {
  }

  lemma UnlockReleasesOwn(c: Config, s: State, e: Event)
    requires LocksHeld(s) && Enabled(c, s, e) && e.Unlock? && e.t in s.threads
    ensures s.threads[e.t].driver in s.locks && s.locks[s.threads[e.t].driver] == e.t
  {
  }

  lemma LocksStayTight(c: Config, s: State, e: Event)
    requires LocksHeld(s) && LocksTight(s) && Enabled(c, s, e)
    ensures LocksTight(Next(c, s, e))
  {
    var after := Next(c, s, e);
    hide Enabled; hide Next; hide Holds; hide LocksHeld;
    StepFrame(c, s, e);
    OnlyOwnThread(c, s, e);
    forall d | d in after.locks
      ensures after.locks[d] in after.threads && Holds(after.threads[after.locks[d]])
      ensures after.threads[after.locks[d]].driver == d
    {
      if after.locks[d] == e.t && e.t in s.threads {
        ThreadIdentity(c, s, e);
        if e.Unlock? {
          UnlockReleasesOwn(c, s, e);
        }
        OwnKeepsHolding(c, s, e);
      }
    }
  }

  lemma {:induction false} LocksAreTight(c: Config, init: State, events: seq<Event>, states: seq<State>, n: nat)
    requires IsRun(c, init, events, states) && Initial(c, init) && n <= |events|
    ensures LocksTight(states[n])
  {
    hide Enabled; hide Next; hide LocksTight; hide Inv;
    if n == 0 {
      NoLocks(c, init);
    } else {
      LocksAreTight(c, init, events, states, n - 1);
      InvHolds(c, init, events, states, n - 1);
      InvLocks(events[..n - 1], states[n - 1]);
      LocksStayTight(c, states[n - 1], events[n - 1]);
    }
  }

  lemma NoLocks(c: Config, s: State)
    requires Initial(c, s)
    ensures LocksTight(s)
  {
  }

  lemma InvLocks(events: seq<Event>, s: State)
    requires Inv(events, s)
    ensures LocksHeld(s)
  {
    hide LocksHeld;
  }

  lemma LockTried(c: Config, s: State, t: int)
    requires Enabled(c, s, TryLock(t)) && t in s.threads && t in Next(c, s, TryLock(t)).threads
    ensures
      var after := Next(c, s, TryLock(t)).threads[t];
      && (after.pc == ANSWERED(Busy) <==> s.threads[t].driver in s.locks)
      && (Holds(after) <==> s.threads[t].driver !in s.locks)
  {
  }

  /** Some handler is between its lock and its unlock on the device. */
  predicate IsHeld(s: State, d: int) {
    exists u :: u in s.threads && Holds(s.threads[u]) && s.threads[u].driver == d
  }

  lemma HeldIffLocked(s: State, d: int)
    requires LocksHeld(s) && LocksTight(s)
    ensures d in s.locks <==> IsHeld(s, d)
  {
    hide Holds;
    if d in s.locks {
      var u := s.locks[d];
      assert u in s.threads && Holds(s.threads[u]) && s.threads[u].driver == d;
    }
  }

  /** In every run, a handler is refused if and only if another one is between its lock and its unlock
      on the same device; otherwise it gets the lock. */
  lemma RefusedIffHeld(c: Config, init: State, events: seq<Event>, states: seq<State>, n: nat, t: int)
    requires IsRun(c, init, events, states) && Initial(c, init)
    requires n < |events| && events[n] == TryLock(t) && t in states[n].threads && t in states[n + 1].threads
    ensures states[n + 1].threads[t].pc == ANSWERED(Busy) || Holds(states[n + 1].threads[t])
    ensures states[n + 1].threads[t].pc == ANSWERED(Busy) <==> IsHeld(states[n], states[n].threads[t].driver)
  {
    assert Enabled(c, states[n], TryLock(t)) && states[n + 1] == Next(c, states[n], TryLock(t)) by {
      hide Enabled; hide Next;
    }
    hide *;
    LocksAreTight(c, init, events, states, n);
    InvHolds(c, init, events, states, n);
    InvLocks(events[..n], states[n]);
    LockTried(c, states[n], t);
    HeldIffLocked(states[n], states[n].threads[t].driver);
  }
}
