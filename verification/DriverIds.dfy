/** Driver ids: a flag array over the ids that are taken, and the loading of drivers that use
    it. The ids index the array of device locks of the daemon. */
module DriverIds {

  const START := 100
  const MAX := 1023
  const IDS := MAX - START + 1
  /** The length of the lock array. */
  const LOCKS := MAX

  predicate IsLeastFree(ids: seq<int>, id: int) {
    id >= START && id !in ids && forall i :: START <= i < id ==> i in ids
  }

  predicate Saturated(ids: seq<int>) {
    forall i :: START <= i <= MAX ==> i in ids
  }

  /** bio_get_empty_driver_id, for a list with these driver ids. The last read of the flags is
      in range only if some id is free. */
  method GetEmptyDriverId(ids: seq<int>) returns (id: int)
    requires forall k :: 0 <= k < |ids| ==> ids[k] <= MAX
    requires !Saturated(ids)
    ensures IsLeastFree(ids, id) && 100 <= id <= 1023
  {
    var taken := new bool[IDS](_ => false);
    for k := 0 to |ids|
      invariant forall i :: 0 <= i < IDS ==> (taken[i] <==> i + START in ids[..k])
    {
      assert ids[..k + 1] == ids[..k] + [ids[k]];
      if ids[k] >= START {
        taken[ids[k] - START] := true;
      }
    }
    assert ids[..|ids|] == ids;
    var i := 0;
    while i < IDS
      invariant 0 <= i <= IDS
      invariant forall j :: 0 <= j < i ==> taken[j]
    {
      if !taken[i] {
        break;
      }
      i := i + 1;
    }
    forall j | START <= j < START + i ensures j in ids {
      assert taken[j - START];
    }
    if !taken[i] {
      return i + START;
    } else {
      return -1;
    }
  }

  // ---------- The pigeonhole principle ----------

  function Without(ids: seq<int>, k: nat): seq<int>
    requires k < |ids|
  {
    ids[..k] + ids[k + 1..]
  }

  /** A list that has `n` ids from START on has at least `n` elements. */
  lemma {:induction false} Pigeonhole(ids: seq<int>, n: nat)
    requires forall i :: START <= i < START + n ==> i in ids
    ensures |ids| >= n
  {
    if n > 0 {
      var last := START + n - 1;
      assert last in ids;
      var k :| 0 <= k < |ids| && ids[k] == last;
      forall i | START <= i < last ensures i in Without(ids, k) {
        assert i in ids;
        var j :| 0 <= j < |ids| && ids[j] == i;
        assert Without(ids, k)[if j < k then j else j - 1] == i;
      }
      Pigeonhole(Without(ids, k), n - 1);
    }
  }

  /** With at most 923 drivers an id is free, and the least one is not beyond 100 + n. */
  lemma LeastFreeIsLow(ids: seq<int>, id: int)
    requires IsLeastFree(ids, id)
    ensures id <= START + |ids|
    ensures |ids| < IDS ==> !Saturated(ids)
  {
    Pigeonhole(ids, id - START);
    if Saturated(ids) {
      Pigeonhole(ids, IDS);
    }
  }

  lemma FewAreNotSaturated(ids: seq<int>)
    requires |ids| < IDS
    ensures !Saturated(ids)
  {
    if Saturated(ids) {
      Pigeonhole(ids, IDS);
    }
  }

  // ---------- Loading drivers ----------

  predicate Consecutive(ids: seq<int>) {
    forall k :: 0 <= k < |ids| ==> ids[k] == START + k
  }

  lemma NextIsConsecutive(ids: seq<int>, id: int)
    requires Consecutive(ids) && IsLeastFree(ids, id)
    ensures id == START + |ids|
  {
    ConsecutiveMembers(ids);
    assert START + |ids| !in ids;
  }

  lemma ConsecutiveMembers(ids: seq<int>)
    requires Consecutive(ids)
    ensures forall i :: i in ids <==> START <= i < START + |ids|
  {
    forall i | START <= i < START + |ids| ensures i in ids {
      assert ids[i - START] == i;
    }
  }

  /** bio_driver_list_init: every driver takes an id when it is configured and is appended to
      the list if its later steps succeed. Up to 923 drivers get different ids that all index
      the lock array, whichever of them fail. */
  method LoadDrivers(loads: seq<bool>) returns (ids: seq<int>)
    requires |loads| < IDS
    ensures Consecutive(ids) && |ids| == |set i | 0 <= i < |loads| && loads[i]|
    ensures forall k :: 0 <= k < |ids| ==> ids[k] == 100 + k < 1023
    ensures forall j, k :: 0 <= j < k < |ids| ==> ids[j] != ids[k]
  {
    ids := [];
    ghost var loaded: set<int> := {};
    for i := 0 to |loads|
      invariant |ids| <= i && Consecutive(ids) && |ids| == |loaded| && loaded == set j | 0 <= j < i && loads[j]
    {
      FewAreNotSaturated(ids);
      var id := GetEmptyDriverId(ids);
      NextIsConsecutive(ids, id);
      if loads[i] {
        ids := ids + [id];
        loaded := loaded + {i};
      }
    }
  }

  /** The bounds are sharp: the 924th driver gets an id past the lock array, and once it is
      loaded the scan for another id reads past its flags. */
  lemma TooManyDrivers(ids: seq<int>)
    requires Consecutive(ids)
    ensures (forall k :: 0 <= k < |ids| ==> ids[k] < LOCKS) <==> |ids| <= 923
    ensures LOCKS == 1023 && IDS == 924
    ensures Saturated(ids) <==> |ids| >= 924
  {
    if |ids| >= 924 {
      ConsecutiveMembers(ids);
      assert ids[923] == MAX;
    } else {
      FewAreNotSaturated(ids);
    }
  }
}
