/** What the events of the daemon do to the feature table, row by row and in the terms of the request. */
module DaemonTable {
  import opened FeatureRows
  import opened FeatureGrouping
  import opened FeatureStore
  import opened IndexAllocator
  import opened FeatureRename
  import opened Daemon

  /** The events that change the table when their statement succeeds. */
  predicate ChangesTable(e: Event) {
    match e
    case Template(_, _, _, _, ok) => ok
    case DeleteRows(_, ok) => ok
    case UpdateName(_, _, ok) => ok
    case _ => false
  }

  lemma OperatingKeepsTable(c: Config, s: State, e: Event)
    requires Enabled(c, s, e) && !ChangesTable(e) && Operates(e)
    ensures Next(c, s, e).rows == s.rows && Next(c, s, e).nextId == s.nextId
  {
  }

  lemma OtherwiseKeepsTable(c: Config, s: State, e: Event)
    requires Enabled(c, s, e) && !ChangesTable(e) && !Operates(e)
    ensures Next(c, s, e).rows == s.rows && Next(c, s, e).nextId == s.nextId
  {
  }

  lemma OthersKeepTable(c: Config, s: State, e: Event)
    requires Enabled(c, s, e) && !ChangesTable(e)
    ensures Next(c, s, e).rows == s.rows && Next(c, s, e).nextId == s.nextId
  {
    hide *;
    if Operates(e) {
      OperatingKeepsTable(c, s, e);
    } else {
      OtherwiseKeepsTable(c, s, e);
    }
  }

  // ---------- Cleans ----------

  lemma DeletedRange(c: Config, s: State, t: int, ok: bool)
    requires Enabled(c, s, DeleteRows(t, ok))
    ensures t in s.threads && (s.threads[t].op.Clean? || s.threads[t].op.CleanAll?)
    ensures
      var th, after := s.threads[t], Next(c, s, DeleteRows(t, ok));
      && after.rows == (if ok then Reject(CleanedRange(c, th), s.rows) else s.rows)
      && t in after.threads
      && (th.op.CleanAll? ==> after.threads[t].pc == ANSWERED(if ok then Finished else Error))
  {
    hide Reject; hide CleanedRange;
  }

  /** A row is gone after a successful clean if and only if its index and its uid are in the range that
      the request names and, for one device, its type and its driver are those of the device. A device
      without a name cleans all drivers of its type. */
  lemma CleanedByRequest(c: Config, s: State, t: int, ok: bool, r: Row)
    requires Enabled(c, s, DeleteRows(t, ok))
    ensures t in s.threads && (s.threads[t].op.Clean? || s.threads[t].op.CleanAll?)
    ensures
      var th := s.threads[t];
      var after := Next(c, s, DeleteRows(t, ok));
      && multiset(after.rows)[r] ==
           (if ok && r.index >= th.op.start && (th.op.end == -1 || r.index <= th.op.end) &&
               (th.uid == -1 || r.uid == th.uid) &&
               (th.op.CleanAll? || (r.biotype == c.biotype(th.driver) &&
                                    (c.name(th.driver) == "" || r.driver == c.name(th.driver))))
            then 0 else multiset(s.rows)[r])
      && t in after.threads
      && (th.op.CleanAll? ==> after.threads[t].pc == ANSWERED(if ok then Finished else Error))
  {
    hide *;
    DeletedRange(c, s, t, ok);
    RequestRow(c, s.threads[t], s.rows, r);
  }

  lemma RequestRow(c: Config, th: Thread, rows: seq<Row>, r: Row)
    requires th.op.Clean? || th.op.CleanAll?
    ensures multiset(Reject(CleanedRange(c, th), rows))[r] ==
      if r.index >= th.op.start && (th.op.end == -1 || r.index <= th.op.end) && (th.uid == -1 || r.uid == th.uid) &&
         (th.op.CleanAll? || (r.biotype == c.biotype(th.driver) &&
                              (c.name(th.driver) == "" || r.driver == c.name(th.driver))))
      then 0 else multiset(rows)[r]
  {
    var d := th.driver;
    match th.op
    case Clean(start, end) =>
      CleanedRow(th.uid, c.biotype(d), Some(c.name(d)), start, end, rows, r);
      hide Reject; hide CleanRange;
    case CleanAll(start, end) =>
      CleanedRow(th.uid, -1, None, start, end, rows, r);
      hide Reject; hide CleanRange;
  }

  // ---------- Renames ----------

  /** An update of a rename gives the row of its sample the key, the name and the number that belong to
      the request, and no row anything else. */
  lemma RenamedByRequest(c: Config, s: State, t: int, sample: Sample)
    requires Enabled(c, s, UpdateName(t, sample, true))
    ensures t in s.threads && s.threads[t].op.Rename?
    ensures
      var th, after := s.threads[t], Next(c, s, UpdateName(t, sample, true));
      && |after.rows| == |s.rows| && after.nextId == s.nextId
      && forall i :: 0 <= i < |s.rows| ==>
           after.rows[i] ==
             if s.rows[i].id != sample.dbid then s.rows[i]
             else Row(sample.dbid, th.uid, s.rows[i].uuid, c.biotype(th.driver), c.name(th.driver),
                      th.op.featureIndex, th.op.newName, sample.no, s.rows[i].data)
  {
  }

  lemma NamesReadOwn(c: Config, s: State, t: int, delivered: seq<Row>)
    requires Enabled(c, s, ReadNames(t, delivered))
    ensures t in s.threads && s.threads[t].op.Rename? && t in Next(c, s, ReadNames(t, delivered)).threads
    ensures Delivers(delivered, NameRange(c, s.threads[t]), s.rows) && Typed(delivered)
    ensures Next(c, s, ReadNames(t, delivered)).threads[t].pending ==
      SamplesToRename(Run(c.users, delivered).list, ThreadKey(c, s.threads[t]))
  {
    DeliveredTyped(c, delivered, NameRange(c, s.threads[t]), s.rows, s.threads[t].driver);
    hide Delivers; hide Run; hide SamplesToRename; hide Typed;
  }

  lemma RangeOfName(c: Config, th: Thread)
    requires th.op.Rename?
    ensures NameRange(c, th) ==
      Range(th.uid, c.biotype(th.driver), Some(c.name(th.driver)), th.op.featureIndex, th.op.featureIndex)
    ensures ThreadKey(c, th).uid == th.uid && ThreadKey(c, th).index == th.op.featureIndex
  {
  }

  /** A rename updates the samples of the entries of its user and index in the list of what a query for
      this user, device and index delivers. */
  lemma NamesReadByRequest(c: Config, s: State, t: int, delivered: seq<Row>, sample: Sample)
    requires Enabled(c, s, ReadNames(t, delivered))
    ensures t in s.threads && s.threads[t].op.Rename? && Typed(delivered)
    ensures
      var th, after := s.threads[t], Next(c, s, ReadNames(t, delivered));
      var d, index, list := th.driver, th.op.featureIndex, Run(c.users, delivered).list;
      && Delivers(delivered, Range(th.uid, c.biotype(d), Some(c.name(d)), index, index), s.rows)
      && t in after.threads
      && (sample in after.threads[t].pending <==>
            exists i :: 0 <= i < |list| && list[i].uid == th.uid && list[i].index == index &&
              sample in list[i].samples)
  {
    hide *;
    NamesReadOwn(c, s, t, delivered);
    RangeOfName(c, s.threads[t]);
    var list, key := Run(c.users, delivered).list, ThreadKey(c, s.threads[t]);
    assert sample in SamplesToRename(list, key) <==> sample in SamplesRead(list, key) by { PendingAre(list, key); }
    if sample in SamplesRead(list, key) {
      ReadAreListed(list, key, sample);
    }
    if i: nat :| i < |list| && list[i].uid == key.uid && list[i].index == key.index && sample in list[i].samples {
      ReadIsIn(list, key, i, sample);
    }
  }

  lemma PendingAre(list: seq<Info>, key: Key)
    ensures forall sample :: sample in SamplesToRename(list, key) <==> sample in SamplesRead(list, key)
  {
  }

  // ---------- Enrolments ----------

  /** An automatic enrolment scans the list of what a query for its user and device delivers. */
  lemma AllocatedByRequest(c: Config, s: State, t: int, delivered: seq<Row>)
    requires Enabled(c, s, Allocate(t, delivered))
    ensures t in s.threads && Typed(delivered) && t in Next(c, s, Allocate(t, delivered)).threads
    ensures
      var th := s.threads[t];
      Delivers(delivered, Range(th.uid, c.biotype(th.driver), Some(c.name(th.driver)), 0, -1), s.rows)
    ensures Next(c, s, Allocate(t, delivered)).threads[t].index == EmptyIndex(Run(c.users, delivered).list, 0, -1)
  {
    DeliveredTyped(c, delivered, ChoiceRange(c, s.threads[t]), s.rows, s.threads[t].driver);
    hide Delivers; hide Run; hide EmptyIndex; hide Typed;
  }

  /** A stored template is one new row with the next id, of the user and the device that the enrolment
      is for. */
  lemma EnrolledByRequest(c: Config, s: State, e: Event)
    requires Enabled(c, s, e) && e.Template? && e.ok
    ensures e.t in s.threads && s.threads[e.t].op.Enroll? && !s.threads[e.t].stored
    ensures
      var th, after := s.threads[e.t], Next(c, s, e);
      && after.nextId == s.nextId + 1
      && after.rows == s.rows + [Row(s.nextId, th.uid, if th.uid == -1 then "" else c.users(th.uid),
                                     c.biotype(th.driver), c.name(th.driver), th.index, e.indexName, e.sampleNo,
                                     e.data)]
      && e.t in after.threads && after.threads[e.t].stored
  {
  }

  /** An enrolment that names its index keeps it from its lock on. */
  predicate IndexKept(th: Thread) {
    th.op.Enroll? && th.op.idx != -1 && Holds(th) ==> th.index == th.op.idx && th.pc != LOCKED
  }

  lemma OwnIndexKept(c: Config, s: State, e: Event)
    requires Enabled(c, s, e) && e.t in Next(c, s, e).threads && (e.t in s.threads ==> IndexKept(s.threads[e.t]))
    ensures IndexKept(Next(c, s, e).threads[e.t])
  {
  }

  lemma {:induction false} IndicesKept(c: Config, init: State, events: seq<Event>, states: seq<State>, n: nat)
    requires IsRun(c, init, events, states) && Initial(c, init) && n <= |events|
    ensures forall t :: t in states[n].threads ==> IndexKept(states[n].threads[t])
  {
    hide Enabled; hide Next; hide IndexKept;
    if n > 0 {
      var s, e := states[n - 1], events[n - 1];
      IndicesKept(c, init, events, states, n - 1);
      OnlyOwnThread(c, s, e);
      OwnIndexKept(c, s, e);
    }
  }

  /** In every run, the row of an enrolment that names its index has this index. */
  lemma NamedIndexIsStored(c: Config, init: State, events: seq<Event>, states: seq<State>, n: nat)
    requires IsRun(c, init, events, states) && Initial(c, init) && n < |events|
    requires events[n].Template? && events[n].ok && events[n].t in states[n].threads
    requires states[n].threads[events[n].t].op.Enroll? && states[n].threads[events[n].t].op.idx != -1
    ensures
      var th := states[n].threads[events[n].t];
      |states[n + 1].rows| > 0 && states[n + 1].rows[|states[n + 1].rows| - 1].index == th.op.idx
  {
    var e := events[n];
    assert Enabled(c, states[n], e) && states[n + 1] == Next(c, states[n], e) by { hide Enabled; hide Next; }
    hide *;
    EnrolledByRequest(c, states[n], e);
    TemplateHolds(c, states[n], e);
    IndicesKept(c, init, events, states, n);
    IndexIs(states[n].threads[e.t]);
  }

  lemma TemplateHolds(c: Config, s: State, e: Event)
    requires Enabled(c, s, e) && e.Template?
    ensures e.t in s.threads && Holds(s.threads[e.t])
  {
  }

  lemma IndexIs(th: Thread)
    requires IndexKept(th) && th.op.Enroll? && th.op.idx != -1 && Holds(th)
    ensures th.index == th.op.idx
  {
  }
}
