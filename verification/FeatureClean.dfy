/** Ranged deletion: what a clean removes, what it leaves, and the clean over all drivers. */
module FeatureClean {
  import opened FeatureRows
  import opened FeatureStore

  // ---------- Queries after a clean ----------

  /** A clean is exact: each row is either kept or was in the range, the range is empty after
      it, and a query on a disjoint range has the same answers as before. */
  lemma CleanIsExact(cleaned: Range, q: Range, rows: seq<Row>, cursor: seq<Row>)
    ensures multiset(Reject(cleaned, rows)) + multiset(Select(cleaned, rows)) == multiset(rows)
    ensures Select(cleaned, Reject(cleaned, rows)) == []
    ensures (forall r :: r in rows ==> !(Matches(cleaned, r) && Matches(q, r))) ==>
      (Answers(cursor, q, Reject(cleaned, rows)) <==> Answers(cursor, q, rows))
  {
    RejectIsExact(cleaned, rows);
    SelectAfterReject(q, cleaned, rows);
    if forall r :: r in rows ==> !(Matches(cleaned, r) && Matches(q, r)) {
      RejectNothing(cleaned, Select(q, rows));
    }
  }

  /** Cleaning a part of a range first makes no difference. */
  lemma {:induction false} WiderClean(part: Range, whole: Range, rows: seq<Row>)
    requires forall r :: Matches(part, r) ==> Matches(whole, r)
    ensures Reject(whole, Reject(part, rows)) == Reject(whole, rows)
  {
    if |rows| > 0 {
      var n := |rows| - 1;
      hide Matches;
      WiderClean(part, whole, rows[..n]);
      RejectAppend(whole, Reject(part, rows[..n]), rows[n]);
    }
  }

  // ---------- The clean over all drivers ----------

  datatype Device = Device(driverId: int, biotype: int, name: string)

  /** How the clean of one device goes: whether its id is known, its lock is free, its DELETE
      was reached and succeeded, and what its result says once the lock is released. */
  datatype Outcome = Outcome(known: bool, locked: bool, deleted: bool, success: bool)

  const RET_SUCCESS := 0
  const RET_ERROR := -2
  const RET_BUSY := -3
  const RET_NO_DEVICE := -4

  function SingleResult(o: Outcome): int {
    if !o.known then RET_NO_DEVICE
    else if !o.locked then RET_BUSY
    else if o.success then RET_SUCCESS
    else RET_ERROR
  }

  predicate Deletes(o: Outcome) {
    o.known && o.locked && o.deleted
  }

  function DeviceRange(dev: Device, uid: int, start: int, end: int): Range {
    CleanRange(uid, dev.biotype, Some(dev.name), start, end)
  }

  function AllDrivers(uid: int, start: int, end: int): Range {
    CleanRange(uid, -1, None, start, end)
  }

  /** The rows after the devices' own cleans. */
  function AfterDevices(devices: seq<Device>, outcomes: seq<Outcome>, uid: int, start: int, end: int,
                        rows: seq<Row>): seq<Row>
    requires |devices| == |outcomes|
  {
    if |devices| == 0 then rows
    else
      var n := |devices| - 1;
      var before := AfterDevices(devices[..n], outcomes[..n], uid, start, end, rows);
      if Deletes(outcomes[n]) then Reject(DeviceRange(devices[n], uid, start, end), before) else before
  }

  lemma {:induction false} DevicesCleanPartly(devices: seq<Device>, outcomes: seq<Outcome>, uid: int, start: int,
                                              end: int, rows: seq<Row>)
    requires |devices| == |outcomes|
    ensures
      var whole := AllDrivers(uid, start, end);
      Reject(whole, AfterDevices(devices, outcomes, uid, start, end, rows)) == Reject(whole, rows)
  {
    if |devices| > 0 {
      var n := |devices| - 1;
      hide Reject;
      DevicesCleanPartly(devices[..n], outcomes[..n], uid, start, end, rows);
      WiderClean(DeviceRange(devices[n], uid, start, end), AllDrivers(uid, start, end),
                 AfterDevices(devices[..n], outcomes[..n], uid, start, end, rows));
    }
  }

  /** The clean of some device was reached and succeeded, and the row is one of that device. */
  predicate OfCleaned(devices: seq<Device>, outcomes: seq<Outcome>, r: Row)
    requires |devices| == |outcomes|
  {
    exists k :: 0 <= k < |devices| && IsOf(devices[k], r) &&
      outcomes[k].known && outcomes[k].locked && outcomes[k].deleted
  }

  predicate IsOf(dev: Device, r: Row) {
    (dev.biotype == -1 || r.biotype == dev.biotype) && (dev.name == "" || r.driver == dev.name)
  }

  lemma OneMoreCleaned(devices: seq<Device>, outcomes: seq<Outcome>, n: nat, r: Row)
    requires |devices| == |outcomes| == n + 1
    ensures OfCleaned(devices, outcomes, r) <==>
      OfCleaned(devices[..n], outcomes[..n], r) || (Deletes(outcomes[n]) && IsOf(devices[n], r))
  {
    hide IsOf;
    if Deletes(outcomes[n]) && IsOf(devices[n], r) {
      assert OfCleaned(devices, outcomes, r);
    }
    if k :| 0 <= k < n && IsOf(devices[..n][k], r) && Deletes(outcomes[..n][k]) {
      assert devices[..n][k] == devices[k] && outcomes[..n][k] == outcomes[k];
    }
    if k :| 0 <= k < n && IsOf(devices[k], r) && Deletes(outcomes[k]) {
      assert devices[..n][k] == devices[k] && outcomes[..n][k] == outcomes[k];
    }
  }

  /** What the devices' own cleans leave, row by row. */
  lemma {:induction false} RowAfterDevices(devices: seq<Device>, outcomes: seq<Outcome>, uid: int, start: int,
                                           end: int, rows: seq<Row>, r: Row)
    requires |devices| == |outcomes|
    ensures multiset(AfterDevices(devices, outcomes, uid, start, end, rows))[r] ==
      if r.index >= start && (end == -1 || r.index <= end) && (uid == -1 || r.uid == uid) &&
         OfCleaned(devices, outcomes, r)
      then 0 else multiset(rows)[r]
  {
    if |devices| > 0 {
      var n := |devices| - 1;
      var before := AfterDevices(devices[..n], outcomes[..n], uid, start, end, rows);
      RowAfterDevices(devices[..n], outcomes[..n], uid, start, end, rows, r);
      CleanedRow(uid, devices[n].biotype, Some(devices[n].name), start, end, before, r);
      OneMoreCleaned(devices, outcomes, n, r);
      hide Reject; hide OfCleaned;
    }
  }

  /** What is left of every row, with the last DELETE or without it. */
  lemma CleanedRows(devices: seq<Device>, outcomes: seq<Outcome>, uid: int, start: int, end: int, rows: seq<Row>,
                    all: bool, after: seq<Row>)
    requires |devices| == |outcomes|
    requires after == if all then Reject(AllDrivers(uid, start, end), rows)
                      else AfterDevices(devices, outcomes, uid, start, end, rows)
    ensures forall r: Row ::
      multiset(after)[r] ==
        if r.index >= start && (end == -1 || r.index <= end) && (uid == -1 || r.uid == uid) &&
           (all || OfCleaned(devices, outcomes, r))
        then 0 else multiset(rows)[r]
  {
    hide OfCleaned; hide Reject; hide AfterDevices;
    forall r: Row
      ensures multiset(after)[r] ==
        if r.index >= start && (end == -1 || r.index <= end) && (uid == -1 || r.uid == uid) &&
           (all || OfCleaned(devices, outcomes, r))
        then 0 else multiset(rows)[r]
    {
      CleanedRow(uid, -1, None, start, end, rows, r);
      RowAfterDevices(devices, outcomes, uid, start, end, rows, r);
    }
  }

  /** The branch of gdbus_clean_pt for all drivers. Whenever its last DELETE succeeds, exactly
      the rows of the range are gone, whatever happened to the devices and even if the reply
      is an error; the reply is a success only if everything succeeded. */
  method CleanAll(table: Table, devices: seq<Device>, outcomes: seq<Outcome>, uid: int, start: int, end: int,
                  prepared: bool, stepOk: bool)
    returns (ret: int)
    requires table.Valid() && |devices| == |outcomes|
    modifies table
    ensures table.Valid()
    ensures table.rows ==
      if prepared && stepOk then Reject(AllDrivers(uid, start, end), old(table.rows))
      else AfterDevices(devices, outcomes, uid, start, end, old(table.rows))
    ensures forall r: Row ::
      multiset(table.rows)[r] ==
        if r.index >= start && (end == -1 || r.index <= end) && (uid == -1 || r.uid == uid) &&
           ((prepared && stepOk) || OfCleaned(devices, outcomes, r))
        then 0 else multiset(old(table.rows))[r]
    ensures ret == 0 || ret == -2
    ensures ret == 0 <==> prepared && stepOk && forall o :: o in outcomes ==> o.known && o.locked && o.success
  {
    hide Reject; hide OfCleaned;
    ret := 0;
    for i := 0 to |devices|
      invariant table.Valid()
      invariant table.rows == AfterDevices(devices[..i], outcomes[..i], uid, start, end, old(table.rows))
      invariant ret == 0 <==> forall o :: o in outcomes[..i] ==> SingleResult(o) == 0
    {
      assert devices[..i + 1][..i] == devices[..i] && outcomes[..i + 1][..i] == outcomes[..i];
      assert outcomes[..i + 1] == outcomes[..i] + [outcomes[i]];
      if Deletes(outcomes[i]) {
        var _ := table.Clean(DeviceRange(devices[i], uid, start, end), true, true);
      }
      var singleRet := SingleResult(outcomes[i]);
      if ret == 0 {
        ret := singleRet;
      }
    }
    assert devices[..|devices|] == devices && outcomes[..|devices|] == outcomes;
    if ret != 0 {
      ret := RET_ERROR;
    }
    DevicesCleanPartly(devices, outcomes, uid, start, end, old(table.rows));
    var singleRet := table.Clean(AllDrivers(uid, start, end), prepared, stepOk);
    CleanedRows(devices, outcomes, uid, start, end, old(table.rows), prepared && stepOk, table.rows);
    if singleRet != 0 {
      ret := RET_ERROR;
    }
  }
}
