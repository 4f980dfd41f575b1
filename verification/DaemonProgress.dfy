/** The ways of the handlers: which steps an operation never takes, and that every handler can come
    to its answer alone, whatever the others hold. */
module DaemonProgress {
  import opened FeatureRows
  import opened FeatureGrouping
  import opened FeatureStore
  import opened IndexAllocator
  import opened Daemon
  import opened DaemonReplies

  // ---------- Steps that are not taken ----------

  /** A rename neither opens nor closes its device, a clean over all devices takes no lock, and only
      an enrolment without an index looks for one. */
  predicate OnPath(th: Thread) {
    && (th.op.Rename? ==> th.pc != CLOSING && th.openedAt == 0)
    && (th.op.CleanAll? ==> th.pc == ARRIVED || th.pc == ANSWERED(Finished) || th.pc == ANSWERED(Error))
    && (th.pc == LOCKED ==> th.op.Enroll? && th.op.idx == -1)
  }

  lemma OwnPath(c: Config, s: State, e: Event)
    requires Enabled(c, s, e) && e.t in Next(c, s, e).threads && (e.t in s.threads ==> OnPath(s.threads[e.t]))
    ensures OnPath(Next(c, s, e).threads[e.t])
  {
  }

  /** In every run, every handler is on its path. */
  lemma {:induction false} PathsKept(c: Config, init: State, events: seq<Event>, states: seq<State>, n: nat, t: int)
    requires IsRun(c, init, events, states) && Initial(c, init) && n <= |events| && t in states[n].threads
    ensures OnPath(states[n].threads[t])
  {
    hide Enabled; hide Next; hide OnPath;
    if n > 0 {
      var s, e := states[n - 1], events[n - 1];
      OnlyOwnThread(c, s, e);
      if t in s.threads {
        PathsKept(c, init, events, states, n - 1, t);
      }
      if t == e.t {
        OwnPath(c, s, e);
      }
    }
  }

  // ---------- Every handler can come to its answer ----------

  /** How many more steps a handler needs at most. */
  function StepsLeft(pc: Pc): nat {
    match pc
    case ARRIVED => 7
    case LOCKED => 6
    case READY => 5
    case RUNNING => 4
    case CLOSING => 3
    case CLOSED => 2
    case UNLOCKED => 1
    case ANSWERED(_) => 0
  }

  /** A step that brings the handler on, whatever state the others are in. */
  function NextStep(t: int, th: Thread): Event {
    match th.pc
    case ARRIVED => if th.op.CleanAll? then DeleteRows(t, true) else TryLock(t)
    case LOCKED => Allocate(t, [])
    case READY => if th.op.Rename? then ReadNames(t, []) else Open(t, false)
    case RUNNING => Return(t)
    case CLOSING => Close(t, true)
    case CLOSED => Unlock(t)
    case UNLOCKED => Answer(t)
    case ANSWERED(_) => Answer(t)
  }

  lemma StepIsEnabled(c: Config, s: State, t: int)
    requires t in s.threads && s.threads[t].driver in s.devices && !s.threads[t].pc.ANSWERED?
    ensures Enabled(c, s, NextStep(t, s.threads[t]))
  {
    var th := s.threads[t];
    if th.pc == LOCKED {
      EveryQueryIsAnswered(ChoiceRange(c, th), s.rows);
    } else if th.pc == READY && th.op.Rename? {
      EveryQueryIsAnswered(NameRange(c, th), s.rows);
    }
    hide Answers;
  }

  /** Its next step leads here. */
  function PcAfter(c: Config, s: State, t: int, th: Thread): Pc
    requires th.pc == UNLOCKED ==> th.driver in s.devices
  {
    match th.pc
    case ARRIVED =>
      if th.op.CleanAll? then ANSWERED(Finished)
      else if th.driver in s.locks then ANSWERED(Busy)
      else if th.op.Enroll? && th.op.idx == -1 then LOCKED
      else READY
    case LOCKED => READY
    case READY => if th.op.Rename? then RUNNING else if c.enabled(th.driver) then CLOSING else CLOSED
    case RUNNING => if th.op.Rename? then CLOSED else CLOSING
    case CLOSING => CLOSED
    case CLOSED => UNLOCKED
    case UNLOCKED => ANSWERED(ReplyFor(th.op, s.devices[th.driver].result))
    case ANSWERED(reply) => ANSWERED(reply)
  }

  lemma StepLeads(c: Config, s: State, t: int)
    requires t in s.threads && !s.threads[t].pc.ANSWERED? && Enabled(c, s, NextStep(t, s.threads[t]))
    requires s.threads[t].driver in s.devices
    ensures t in Next(c, s, NextStep(t, s.threads[t])).threads
    ensures Next(c, s, NextStep(t, s.threads[t])).threads[t].pc == PcAfter(c, s, t, s.threads[t])
  {
    hide ReplyFor; hide CleanedRange; hide Run; hide EmptyIndex; hide SamplesToRename; hide Reject; hide Delivers;
    match s.threads[t].pc
    case ARRIVED =>
    case LOCKED =>
    case READY =>
    case RUNNING =>
    case CLOSING =>
    case CLOSED =>
    case UNLOCKED =>
    case ANSWERED(_) =>
  }

  lemma StepBringsOn(c: Config, s: State, t: int)
    requires t in s.threads && !s.threads[t].pc.ANSWERED? && s.threads[t].driver in s.devices
    ensures
      var e := NextStep(t, s.threads[t]);
      && e.t == t && Enabled(c, s, e) && t in Next(c, s, e).threads
      && StepsLeft(Next(c, s, e).threads[t].pc) < StepsLeft(s.threads[t].pc)
  {
    hide Enabled; hide Next; hide ReplyFor;
    StepIsEnabled(c, s, t);
    StepLeads(c, s, t);
  }

  /** One more event of a run. */
  lemma RunGoesOn(c: Config, init: State, events: seq<Event>, states: seq<State>, e: Event)
    returns (events2: seq<Event>, states2: seq<State>)
    requires IsRun(c, init, events, states) && Enabled(c, states[|events|], e)
    ensures events2 == events + [e] && IsRun(c, init, events2, states2)
    ensures states2[|events2|] == Next(c, states[|events|], e)
  {
    events2, states2 := events + [e], states + [Next(c, states[|events|], e)];
    RunExtends(c, init, events, states, e);
    hide Enabled; hide Next;
  }

  lemma HandlersDevice(c: Config, init: State, events: seq<Event>, states: seq<State>, t: int)
    requires IsRun(c, init, events, states) && Initial(c, init) && t in states[|events|].threads
    ensures states[|events|].threads[t].driver in states[|events|].devices
  {
    InvHolds(c, init, events, states, |events|);
    assert events[..|events|] == events;
    hide IsRun; hide Enabled; hide Next;
    assert ThreadOk(events, states[|events|], t, states[|events|].threads[t]);
  }

  /** In every run, every handler can come to its answer in at most seven steps of its own. */
  lemma {:induction false} CanAnswer(c: Config, init: State, events: seq<Event>, states: seq<State>, t: int)
    returns (more: seq<Event>, states2: seq<State>)
    requires IsRun(c, init, events, states) && Initial(c, init) && t in states[|events|].threads
    ensures IsRun(c, init, events + more, states2) && |more| <= StepsLeft(states[|events|].threads[t].pc) <= 7
    ensures forall e :: e in more ==> e.t == t
    ensures t in states2[|events| + |more|].threads && states2[|events| + |more|].threads[t].pc.ANSWERED?
    decreases StepsLeft(states[|events|].threads[t].pc)
  {
    hide Enabled; hide Next; hide Initial; hide NextStep;
    var th := states[|events|].threads[t];
    if th.pc.ANSWERED? {
      assert events + [] == events;
      return [], states;
    }
    HandlersDevice(c, init, events, states, t);
    StepBringsOn(c, states[|events|], t);
    var events1, states1 := RunGoesOn(c, init, events, states, NextStep(t, th));
    var rest;
    rest, states2 := CanAnswer(c, init, events1, states1, t);
    more := [NextStep(t, th)] + rest;
    assert events1 + rest == events + more;
  }

  // ---------- What a handler at work may meet ----------

  /** Nothing that the devices, the library or the statements can do is left out: a device that is not
      disabled may open, a comparison may report any outcome, a template or a statement may succeed or
      fail, and an operation may be stopped, time out or be unknown to the driver. */
  lemma AtWork(c: Config, s: State, t: int, matched: bool, found: int, indexName: string, sampleNo: int,
               data: seq<bv8>, ok: bool)
    requires t in s.threads
    ensures
      var th := s.threads[t];
      var op := th.op;
      && (th.pc == READY && !op.Rename? && (ok ==> c.enabled(th.driver)) ==> Enabled(c, s, Open(t, ok)))
      && (th.pc == RUNNING ==>
            && ((op.Verify? || op.Identify?) && (th.uid != -1 ==> found == th.uid) ==>
                  Enabled(c, s, Match(t, matched, found)))
            && (op.Enroll? && !th.stored ==> Enabled(c, s, Template(t, indexName, sampleNo, data, ok)))
            && (op.Clean? ==> Enabled(c, s, DeleteRows(t, ok)))
            && (op.Clean? || op.Rename? ==>
                  Enabled(c, s, WriteNote(t, COMPLETED)) && Enabled(c, s, WriteNote(t, MISSED)))
            && (op.Enroll? || op.Verify? || op.Identify? ==>
                  Enabled(c, s, WriteNote(t, STOPPED)) && Enabled(c, s, WriteNote(t, TIMED_OUT)))
            && (!op.Rename? && !op.CleanAll? ==> Enabled(c, s, WriteNote(t, UNSUPPORTED)))
            && forall sample :: op.Rename? && sample in th.pending ==> Enabled(c, s, UpdateName(t, sample, ok)))
      && (th.pc == CLOSING ==> Enabled(c, s, Close(t, ok)))
  {
  }
}
