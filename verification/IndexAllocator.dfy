/** The choice of a free feature index: a scan over the list of a query. */
module IndexAllocator {
  import opened FeatureRows
  import opened FeatureGrouping

  predicate Lists(list: seq<Info>, index: int) {
    exists k :: 0 <= k < |list| && list[k].index == index
  }

  /** What a query for one user, type and driver from `start` gives. */
  predicate Increasing(list: seq<Info>, start: int) {
    && (forall k :: 0 <= k < |list| ==> list[k].index >= start)
    && (forall j, k :: 0 <= j < k < |list| ==> list[j].index < list[k].index)
  }

  /** The list is a run of indices from `start`, perhaps an empty one. */
  predicate Contiguous(list: seq<Info>, start: int) {
    forall k :: 0 <= k < |list| ==> list[k].index == start + k
  }

  predicate IsLeastFree(list: seq<Info>, start: int, free: int) {
    free >= start && !Lists(list, free) && forall i :: start <= i < free ==> Lists(list, i)
  }

  lemma LeastFreeIsUnique(list: seq<Info>, start: int, a: int, b: int)
    requires IsLeastFree(list, start, a) && IsLeastFree(list, start, b)
    ensures a == b
  {
    hide Lists;
  }

  lemma RunThenGap(list: seq<Info>, start: int, n: nat)
    requires Increasing(list, start) && n <= |list| && Contiguous(list[..n], start)
    requires n < |list| ==> list[n].index > start + n
    ensures IsLeastFree(list, start, start + n)
  {
    forall i | start <= i < start + n ensures Lists(list, i) {
      assert list[..n][i - start].index == i;
      assert list[i - start].index == i;
    }
    forall k | 0 <= k < |list| ensures list[k].index != start + n {
      if k < n {
        assert list[..n][k].index == start + k;
      }
    }
  }

  // ---------- The scan ----------

  /** The variables of the loop, and whether it stopped at an index above the counter. */
  datatype Scan = Scan(empty: int, current: int, gap: bool)

  function Scanned(list: seq<Info>, start: int): Scan {
    if |list| == 0 then Scan(start, -1, false)
    else
      var before, index := Scanned(list[..|list| - 1], start), list[|list| - 1].index;
      if before.gap then before
      else Scan(if index == before.empty then before.empty + 1 else before.empty, index, index > before.empty)
  }

  /** The index that the scan of a list yields. */
  function EmptyIndex(list: seq<Info>, start: int, end: int): int {
    var scan := Scanned(list, start);
    if scan.gap then scan.empty else if end == -1 then scan.current + 1 else -1
  }

  lemma {:induction false} GapStays(list: seq<Info>, start: int, n: nat)
    requires n <= |list| && Scanned(list[..n], start).gap
    ensures Scanned(list, start) == Scanned(list[..n], start)
    decreases |list| - n
  {
    if n == |list| {
      assert list[..n] == list;
    } else {
      assert list[..n + 1][..n] == list[..n];
      GapStays(list, start, n + 1);
    }
  }

  /** The loop of bio_common_get_empty_index over the list that its query gave. */
  method ScanList(infoList: seq<Info>, start: int, end: int) returns (index: int)
    ensures index == EmptyIndex(infoList, start, end)
  {
    var cmp, current := 0, -1;
    var empty := start;
    var i := 0;
    while i < |infoList|
      invariant 0 <= i <= |infoList| && cmp <= 0
      invariant Scanned(infoList[..i], start) == Scan(empty, current, false)
    {
      assert infoList[..i + 1][..i] == infoList[..i];
      current := infoList[i].index;
      cmp := current - empty;
      if cmp == 0 {
        empty := empty + 1;
      }
      if cmp > 0 {
        GapStays(infoList, start, i + 1);
        break;
      }
      i := i + 1;
    }
    assert infoList[..|infoList|] == infoList;
    if cmp > 0 {
      return empty;
    }
    if end == -1 {
      return current + 1;
    }
    return -1;
  }

  lemma {:induction false} ContiguousScan(list: seq<Info>, start: int)
    requires Contiguous(list, start)
    ensures Scanned(list, start) ==
      Scan(start + |list|, if list == [] then -1 else start + |list| - 1, false)
  {
    if |list| > 0 {
      ContiguousScan(list[..|list| - 1], start);
    }
  }

  /** The first entry of an increasing list that does not continue the run from the start. */
  lemma {:induction false} FirstGap(list: seq<Info>, start: int) returns (n: nat)
    requires Increasing(list, start) && !Contiguous(list, start)
    ensures n < |list| && Contiguous(list[..n], start) && list[n].index > start + n
  {
    var m := |list| - 1;
    if Contiguous(list[..m], start) {
      n := m;
      assert list[..m][..m] == list[..m];
      assert forall k :: 0 <= k < m ==> list[..m][k] == list[k];
      assert list[m].index >= start + m by {
        if m > 0 {
          assert list[m - 1].index == start + m - 1 < list[m].index;
        }
      }
    } else {
      n := FirstGap(list[..m], start);
      assert list[..m][..n] == list[..n];
    }
  }

  /** On the list of one user the scan finds the least free index. With an upper bound it
      gives -1 exactly when the list is a run from `start`, even where the run ends below the
      bound; without one an empty list gives 0. */
  lemma EmptyIndexIs(list: seq<Info>, start: int, end: int)
    requires Increasing(list, start)
    ensures
      var index := EmptyIndex(list, start, end);
      if !Contiguous(list, start) then
        IsLeastFree(list, start, index) && exists k :: 0 <= k < |list| && index < list[k].index
      else if end != -1 then index == -1
      else if list == [] then index == 0
      else IsLeastFree(list, start, index)
  {
    if Contiguous(list, start) {
      ContiguousScan(list, start);
      assert list[..|list|] == list;
      RunThenGap(list, start, |list|);
    } else {
      var n := FirstGap(list, start);
      ContiguousScan(list[..n], start);
      assert list[..n + 1][..n] == list[..n];
      assert Scanned(list[..n + 1], start) == Scan(start + n, list[n].index, true);
      GapStays(list, start, n + 1);
      RunThenGap(list, start, n);
    }
  }

  // ---------- On the list of a query ----------

  /** A feature of the user is stored under the index. */
  predicate Used(users: int -> string, rows: seq<Row>, uid: int, biotype: int, driver: string, index: int) {
    exists r :: r in rows && Visible(users, r) && KeyOf(r) == Key(uid, biotype, driver, index)
  }

  /** An upper bound below the start is moved to the start. */
  function LastIndex(start: int, end: int): int {
    if end != -1 && end < start then start else end
  }

  /** The query of the allocator. */
  function AllocatorRange(uid: int, biotype: int, driver: string, start: int, end: int): Range {
    Range(uid, biotype, Some(driver), start, LastIndex(start, end))
  }

  predicate InBounds(index: int, start: int, last: int) {
    index >= start && (last != -1 ==> index <= last)
  }

  /** The rows of one user cannot be merged wrongly. */
  lemma OneUserNoStaleMerge(owners: int -> string, cursor: seq<Row>, uid: int)
    requires forall r :: r in cursor ==> r.uid == uid
    ensures NoStaleMerge(owners, cursor)
  {
    forall n | 0 <= n < |cursor| ensures !StaleMerge(owners, cursor[..n], cursor[n]) {
      match LastVisible(owners, cursor[..n]) {
        case None =>
        case Some(v) => assert v in cursor && cursor[n] in cursor;
      }
    }
  }

  lemma KeysIncrease(list: seq<Info>, uid: int, biotype: int, driver: string, start: int)
    requires forall i, j :: 0 <= i < j < |list| ==> KeyLess(InfoKey(list[i]), InfoKey(list[j]))
    requires forall i :: 0 <= i < |list| ==>
      list[i].uid == uid && list[i].biotype == biotype && list[i].driver == driver && list[i].index >= start
    ensures Increasing(list, start)
  {
    StringLessIrreflexive(driver);
  }

  lemma {:induction false} RowOfKey(owners: int -> string, rows: seq<Row>, key: Key) returns (r: Row)
    requires RowsWithKey(owners, rows, key) != []
    ensures r in rows && Visible(owners, r) && KeyOf(r) == key
  {
    var n := |rows| - 1;
    if RowsWithKey(owners, rows[..n], key) != [] {
      r := RowOfKey(owners, rows[..n], key);
    } else {
      r := rows[n];
    }
  }

  /** An entry of an index has a visible row with its key. */
  lemma EntryHasRow(owners: int -> string, rows: seq<Row>, list: seq<Info>, i: nat) returns (r: Row)
    requires IsIndex(owners, rows, list) && i < |list|
    ensures r in rows && Visible(owners, r) && KeyOf(r) == InfoKey(list[i])
  {
    hide RowsWithKey; hide KeyLess;
    assert IsEntry(list[i], RowsWithKey(owners, rows, InfoKey(list[i])));
    r := RowOfKey(owners, rows, InfoKey(list[i]));
  }

  lemma VisibleForOwner(users: int -> string, cursor: seq<Row>, r: Row)
    requires r.uid != -1
    ensures Visible(Owners(users, cursor), r) <==> Visible(users, r)
  {
  }

  /** For one user the list is the index of its rows. */
  lemma OneUserIndex(users: int -> string, cursor: seq<Row>, uid: int)
    requires Sorted(cursor) && Typed(cursor) && forall r :: r in cursor ==> r.uid == uid
    ensures IsIndex(Owners(users, cursor), cursor, Run(users, cursor).list)
  {
    var owners := Owners(users, cursor);
    OneUserNoStaleMerge(owners, cursor, uid);
    PassIsExact(users, cursor);
    ListedIsIndex(owners, cursor);
  }

  /** What an index of rows of one user, type and driver lists. */
  lemma IndexListsUsed(users: int -> string, owners: int -> string, rows: seq<Row>, cursor: seq<Row>, list: seq<Info>,
                       uid: int, biotype: int, driver: string, start: int, last: int)
    requires IsIndex(owners, cursor, list)
    requires forall r :: r in cursor <==>
      r in rows && KeyOf(r) == Key(uid, biotype, driver, r.index) && InBounds(r.index, start, last)
    requires forall r :: r in cursor ==> (Visible(owners, r) <==> Visible(users, r))
    ensures Increasing(list, start)
    ensures forall i :: Lists(list, i) <==> InBounds(i, start, last) && Used(users, rows, uid, biotype, driver, i)
  {
    hide KeyLess; hide RowsWithKey; hide IsEntry; hide Visible;
    forall i: nat | i < |list|
      ensures InfoKey(list[i]) == Key(uid, biotype, driver, list[i].index)
      ensures InBounds(list[i].index, start, last) && Used(users, rows, uid, biotype, driver, list[i].index)
    {
      var r := EntryHasRow(owners, cursor, list, i);
      assert r in rows && Visible(users, r);
    }
    KeysIncrease(list, uid, biotype, driver, start);
    forall i | InBounds(i, start, last) && Used(users, rows, uid, biotype, driver, i) ensures Lists(list, i) {
      var r :| r in rows && Visible(users, r) && KeyOf(r) == Key(uid, biotype, driver, i);
      assert r in cursor;
      var k :| 0 <= k < |list| && InfoKey(list[k]) == KeyOf(r);
      assert list[k].index == i;
    }
  }

  /** The list of the allocator's query shows exactly the used indices in its bounds, in
      increasing order, for every uid but -1, which removes the restriction to one user. */
  lemma QueryShowsUsed(users: int -> string, rows: seq<Row>, cursor: seq<Row>, uid: int, biotype: int, driver: string,
                       start: int, end: int)
    requires uid != -1 && biotype >= 0 && Answers(cursor, AllocatorRange(uid, biotype, driver, start, end), rows)
    ensures Typed(cursor) && Increasing(Run(users, cursor).list, start)
    ensures forall i :: Lists(Run(users, cursor).list, i) <==>
      InBounds(i, start, LastIndex(start, end)) && Used(users, rows, uid, biotype, driver, i)
  {
    var q := AllocatorRange(uid, biotype, driver, start, end);
    AnswersContain(cursor, q, rows);
    forall r ensures r in cursor <==>
      r in rows && KeyOf(r) == Key(uid, biotype, driver, r.index) && InBounds(r.index, start, LastIndex(start, end))
    {
      assert r in cursor <==> r in rows && Matches(q, r);
    }
    forall r | r in cursor ensures Visible(Owners(users, cursor), r) <==> Visible(users, r) {
      VisibleForOwner(users, cursor, r);
    }
    hide *;
    OneUser(rows, cursor, q, uid, biotype);
    OneUserIndex(users, cursor, uid);
    IndexListsUsed(users, Owners(users, cursor), rows, cursor, Run(users, cursor).list, uid, biotype, driver, start,
                   LastIndex(start, end));
  }

  lemma OneUser(rows: seq<Row>, cursor: seq<Row>, q: Range, uid: int, biotype: int)
    requires q.uid == uid != -1 && q.biotype == biotype >= 0 && Delivers(cursor, q, rows)
    ensures Sorted(cursor) && Typed(cursor) && forall r :: r in cursor ==> r.uid == uid
  {
    DeliveredContain(cursor, q, rows);
  }

  // ---------- The whole function ----------

  /** The least index from `start` on under which the user has no visible row. */
  ghost predicate IsLeastUnused(users: int -> string, rows: seq<Row>, uid: int, biotype: int, driver: string,
                                start: int, index: int) {
    && index >= start && !Used(users, rows, uid, biotype, driver, index)
    && forall i :: start <= i < index ==> Used(users, rows, uid, biotype, driver, i)
  }

  /** The least unused index, with a used one between it and the upper bound. */
  ghost predicate IsGap(users: int -> string, rows: seq<Row>, uid: int, biotype: int, driver: string,
                        start: int, last: int, index: int) {
    && IsLeastUnused(users, rows, uid, biotype, driver, start, index)
    && exists i :: index < i <= last && Used(users, rows, uid, biotype, driver, i)
  }

  /** What the function promises of the table. Without an upper bound it gives the least unused
      index, or 0 if nothing is used from the start on; with one it gives the least unused index
      only if a used one follows within the bound, else -1. */
  ghost predicate IsAllocated(users: int -> string, rows: seq<Row>, uid: int, biotype: int, driver: string,
                              start: int, last: int, index: int) {
    if last == -1 then
      if exists i :: i >= start && Used(users, rows, uid, biotype, driver, i)
      then IsLeastUnused(users, rows, uid, biotype, driver, start, index)
      else index == 0
    else if exists free :: IsGap(users, rows, uid, biotype, driver, start, last, free)
    then IsGap(users, rows, uid, biotype, driver, start, last, index)
    else index == -1
  }

  lemma ListAllocates(users: int -> string, rows: seq<Row>, list: seq<Info>, uid: int, biotype: int, driver: string,
                      start: int, last: int)
    requires Increasing(list, start)
    requires forall i :: Lists(list, i) <==> InBounds(i, start, last) && Used(users, rows, uid, biotype, driver, i)
    ensures IsAllocated(users, rows, uid, biotype, driver, start, last, EmptyIndex(list, start, last))
  {
    var index := EmptyIndex(list, start, last);
    EmptyIndexIs(list, start, last);
    hide Used; hide EmptyIndex;
    if !Contiguous(list, start) {
      var k :| 0 <= k < |list| && index < list[k].index;
      assert Lists(list, list[k].index);
    } else {
      forall i, j | start <= i < j && Lists(list, j) ensures Lists(list, i) {
        var k :| 0 <= k < |list| && list[k].index == j;
        assert list[i - start].index == i;
      }
      if list != [] {
        assert Lists(list, list[0].index);
      }
    }
  }

  /** bio_common_get_empty_index: `cursor` holds the rows that its query delivers of `rows`. */
  method GetEmptyIndex(users: int -> string, ghost rows: seq<Row>, cursor: seq<Row>, uid: int, biotype: int,
                       driver: string, start: int, end: int)
    returns (index: int)
    requires biotype >= 0 && Typed(cursor) && Delivers(cursor, AllocatorRange(uid, biotype, driver, start, end), rows)
    ensures
      var last := if end != -1 && end < start then start else end;
      && index == EmptyIndex(Run(users, cursor).list, start, last)
      && (uid != -1 && Answers(cursor, Range(uid, biotype, Some(driver), start, last), rows) ==>
            IsAllocated(users, rows, uid, biotype, driver, start, last, index))
  {
    hide Answers; hide Delivers; hide IsAllocated; hide EmptyIndex; hide Run; hide Typed;
    var last := end;
    if end != -1 && end < start {
      last := start;
    }
    var infoList := Group(users, cursor);
    index := ScanList(infoList, start, last);
    if uid != -1 && Answers(cursor, AllocatorRange(uid, biotype, driver, start, end), rows) {
      QueryShowsUsed(users, rows, cursor, uid, biotype, driver, start, end);
      ListAllocates(users, rows, infoList, uid, biotype, driver, start, last);
    }
  }

  // ---------- When the query is cut short ----------

  /** The index chosen from the first entries of a list is taken if and only if they do not
      reach the first gap. */
  lemma CutShort(list: seq<Info>, shorter: seq<Info>, free: int)
    requires Increasing(list, 0) && IsLeastFree(list, 0, free) && |shorter| <= |list|
    requires forall k :: 0 <= k < |shorter| ==> shorter[k].index == list[k].index
    ensures Lists(list, EmptyIndex(shorter, 0, -1)) <==> |shorter| < free
    ensures EmptyIndex(shorter, 0, -1) == if |shorter| < free then |shorter| else free
  {
    var m := |shorter|;
    RunUpToFree(list, free);
    EmptyIndexIs(shorter, 0, -1);
    hide EmptyIndex;
    if m < free {
      assert shorter[..m] == shorter;
      RunThenGap(shorter, 0, m);
      if m > 0 {
        LeastFreeIsUnique(shorter, 0, m, EmptyIndex(shorter, 0, -1));
      }
      assert list[m].index == m;
    } else {
      assert IsLeastFree(shorter, 0, free) by {
        forall i | 0 <= i < free ensures Lists(shorter, i) {
          assert shorter[i].index == i;
        }
        forall k | 0 <= k < m ensures shorter[k].index != free {
          assert list[k].index != free;
        }
      }
      if m > 0 {
        LeastFreeIsUnique(shorter, 0, free, EmptyIndex(shorter, 0, -1));
      }
    }
  }

  lemma {:induction false} IndexAtLeast(list: seq<Info>, k: nat)
    requires Increasing(list, 0) && k < |list|
    ensures list[k].index >= k
  {
    if k > 0 {
      IndexAtLeast(list, k - 1);
    }
  }

  /** The indices below the least free one are at the start of the list. */
  lemma RunUpToFree(list: seq<Info>, free: int)
    requires Increasing(list, 0) && IsLeastFree(list, 0, free)
    ensures free <= |list| && forall i :: 0 <= i < free ==> list[i].index == i
  {
    var n := 0;
    while n < free
      invariant 0 <= n <= free && n <= |list|
      invariant forall i :: 0 <= i < n ==> list[i].index == i
    {
      assert Lists(list, n);
      var k :| 0 <= k < |list| && list[k].index == n;
      assert n <= k;
      IndexAtLeast(list, k);
      n := n + 1;
    }
  }

  /** The entries of the first rows are the first entries, perhaps with fewer samples. */
  lemma {:induction false} ListedKeysGrow(owners: int -> string, rows: seq<Row>, n: nat)
    requires n <= |rows|
    ensures |Listed(owners, rows[..n])| <= |Listed(owners, rows)|
    ensures forall k :: 0 <= k < |Listed(owners, rows[..n])| ==>
      InfoKey(Listed(owners, rows[..n])[k]) == InfoKey(Listed(owners, rows)[k])
    decreases |rows| - n
  {
    hide Visible;
    if n == |rows| {
      assert rows[..n] == rows;
    } else {
      assert rows[..n + 1][..n] == rows[..n];
      ListedKeysGrow(owners, rows, n + 1);
    }
  }

  lemma OwnersOfStart(users: int -> string, whole: seq<Row>, cursor: seq<Row>)
    requires cursor <= whole && cursor != []
    ensures Owners(users, cursor) == Owners(users, whole)
  {
  }

  /** A list for one user that is cut short has the first entries of the whole one. */
  lemma CutShortList(users: int -> string, whole: seq<Row>, cursor: seq<Row>, uid: int)
    requires Sorted(whole) && Typed(whole) && Typed(cursor) && cursor <= whole
    requires forall r :: r in whole ==> r.uid == uid
    ensures
      var list, shorter := Run(users, whole).list, Run(users, cursor).list;
      |shorter| <= |list| && forall k :: 0 <= k < |shorter| ==> InfoKey(shorter[k]) == InfoKey(list[k])
  {
    var n := |cursor|;
    assert cursor == whole[..n];
    if n > 0 {
      assert forall r :: r in cursor ==> r in whole;
      var owners := Owners(users, whole);
      OwnersOfStart(users, whole, cursor);
      hide *;
      SortedPrefix(whole, n);
      OneUserNoStaleMerge(owners, whole, uid);
      OneUserNoStaleMerge(owners, cursor, uid);
      PassIsExact(users, whole);
      PassIsExact(users, cursor);
      ListedKeysGrow(owners, whole, n);
    }
  }

  lemma WholeIs(cursor: seq<Row>, q: Range, rows: seq<Row>) returns (whole: seq<Row>)
    requires Delivers(cursor, q, rows)
    ensures Answers(whole, q, rows) && cursor <= whole
  {
    whole :| Answers(whole, q, rows) && cursor <= whole;
  }

  /** Automatic choice for any user but -1, however many rows the query delivers: the index is
      taken if and only if the list has fewer entries than the least unused index. */
  lemma ChoiceIsFree(users: int -> string, rows: seq<Row>, cursor: seq<Row>, uid: int, biotype: int, driver: string,
                     free: int)
    requires uid != -1 && biotype >= 0 && Typed(cursor)
    requires Delivers(cursor, AllocatorRange(uid, biotype, driver, 0, -1), rows)
    requires IsLeastUnused(users, rows, uid, biotype, driver, 0, free)
    ensures
      var list := Run(users, cursor).list;
      var index := EmptyIndex(list, 0, -1);
      && (Used(users, rows, uid, biotype, driver, index) <==> |list| < free)
      && index == if |list| < free then |list| else free
  {
    var q := AllocatorRange(uid, biotype, driver, 0, -1);
    hide Answers; hide Delivers; hide Used; hide Run; hide Typed; hide EmptyIndex; hide Sorted;
    var whole := WholeIs(cursor, q, rows);
    AnswersAreDelivered(whole, q, rows);
    OneUser(rows, whole, q, uid, biotype);
    QueryShowsUsed(users, rows, whole, uid, biotype, driver, 0, -1);
    CutShortList(users, whole, cursor, uid);
    var list, shorter := Run(users, whole).list, Run(users, cursor).list;
    hide Lists;
    UsedIsListed(users, rows, list, uid, biotype, driver, free);
    assert forall k :: 0 <= k < |shorter| ==> InfoKey(shorter[k]) == InfoKey(list[k]);
    CutShort(list, shorter, free);
  }

  lemma UsedIsListed(users: int -> string, rows: seq<Row>, list: seq<Info>, uid: int, biotype: int, driver: string,
                     free: int)
    requires IsLeastUnused(users, rows, uid, biotype, driver, 0, free)
    requires forall i :: Lists(list, i) <==> InBounds(i, 0, -1) && Used(users, rows, uid, biotype, driver, i)
    ensures IsLeastFree(list, 0, free)
    ensures forall i :: i >= 0 ==> (Lists(list, i) <==> Used(users, rows, uid, biotype, driver, i))
  {
    hide Used; hide Lists;
  }

  // ---------- The uid -1 ----------

  lemma {:induction false} CounterGrows(own: seq<Info>, others: seq<Info>)
    ensures Scanned(own, 0).empty <= Scanned(own + others, 0).empty
    ensures others != [] && !Scanned(own + others, 0).gap ==>
      Scanned(own + others, 0).current == others[|others| - 1].index
  {
    if others == [] {
      assert own + others == own;
    } else {
      var m := |others| - 1;
      assert (own + others)[..|own| + m] == own + others[..m];
      CounterGrows(own, others[..m]);
    }
  }

  /** A scan that goes on over the entries of others: it chooses a used index if and only if
      the own indices are a run from 0, the scan meets no gap, and the last entry of the others
      lies below the end of that run. */
  lemma ScanOverOthers(own: seq<Info>, others: seq<Info>)
    requires Increasing(own, 0) && forall k :: 0 <= k < |others| ==> others[k].index >= 0
    ensures Lists(own, EmptyIndex(own + others, 0, -1)) <==>
      Contiguous(own, 0) && !Scanned(own + others, 0).gap &&
      others != [] && others[|others| - 1].index + 1 < |own|
  {
    var list := own + others;
    assert list[..|own|] == own;
    CounterGrows(own, others);
    EmptyIndexIs(own, 0, -1);
    if !Contiguous(own, 0) {
      var n := FirstGap(own, 0);
      ContiguousScan(own[..n], 0);
      assert own[..n + 1][..n] == own[..n];
      assert Scanned(own[..n + 1], 0) == Scan(n, own[n].index, true);
      GapStays(own, 0, n + 1);
      GapStays(list, 0, |own|);
    } else {
      ContiguousScan(own, 0);
      var index := EmptyIndex(list, 0, -1);
      if others == [] {
        assert list == own;
      }
      if 0 <= index < |own| {
        assert own[index].index == index;
      }
    }
  }

  /** The number of entries of the uid -1 at the start of a list. */
  function OwnEntries(list: seq<Info>): (n: nat)
    ensures n <= |list| && forall k :: 0 <= k < n ==> list[k].uid == -1
  {
    if |list| == 0 then 0
    else
      var n := OwnEntries(list[..|list| - 1]);
      if n == |list| - 1 && list[n].uid == -1 then n + 1 else n
  }

  lemma {:induction false} OwnEntriesAre(list: seq<Info>, m: nat)
    requires m <= |list| && (forall k :: 0 <= k < m ==> list[k].uid == -1)
    requires forall k :: m <= k < |list| ==> list[k].uid != -1
    ensures OwnEntries(list) == m
  {
    if |list| > 0 {
      var n := |list| - 1;
      OwnEntriesAre(list[..n], if m > n then n else m);
    }
  }

  function Own(list: seq<Info>): seq<Info> {
    list[..OwnEntries(list)]
  }

  /** In sorted rows without uids below -1 those of the uid -1 come first. */
  lemma NobodysRows(cursor: seq<Row>) returns (n: nat)
    requires Sorted(cursor) && NobodyFirst(cursor)
    ensures n <= |cursor| && (forall r :: r in cursor[..n] ==> r.uid == -1)
    ensures forall r :: r in cursor[n..] ==> r.uid > -1
  {
    n := 0;
    while n < |cursor| && cursor[n].uid == -1
      invariant n <= |cursor| && forall k :: 0 <= k < n ==> cursor[k].uid == -1
    {
      n := n + 1;
    }
    forall k | n <= k < |cursor| ensures cursor[k].uid > -1 {
      assert cursor[n] in cursor && (k > n ==> RowLeq(cursor[n], cursor[k]));
    }
  }

  lemma NobodysOwners(users: int -> string, cursor: seq<Row>, n: nat, r: Row)
    requires n <= |cursor| && (forall s :: s in cursor[..n] ==> s.uid == -1) && r in cursor[..n]
    ensures Owners(users, cursor) == Owners(users, cursor[..n]) == WithNobody(users)
  {
    assert cursor[0] in cursor[..n];
  }

  lemma OwnUids(owners: int -> string, rows: seq<Row>, list: seq<Info>)
    requires IsIndex(owners, rows, list) && forall r :: r in rows ==> r.uid == -1
    ensures forall k :: 0 <= k < |list| ==> list[k].uid == -1
  {
    hide IsIndex;
    forall k: nat | k < |list| ensures list[k].uid == -1 {
      var r := EntryHasRow(owners, rows, list, k);
    }
  }

  lemma OthersUids(list: seq<Info>, after: seq<Info>, owners: int -> string, rest: seq<Row>)
    requires Extends(list, after, owners, rest) && forall r :: r in rest ==> r.uid > -1
    ensures forall k :: |list| <= k < |after| ==> after[k].uid != -1
    ensures (forall r :: r in rest ==> r.index >= 0) ==> forall k :: |list| <= k < |after| ==> after[k].index >= 0
    ensures forall k :: 0 <= k < |list| ==> after[k].uid == list[k].uid && after[k].index == list[k].index
  {
    forall k: nat | |list| <= k < |after|
      ensures exists r :: r in rest && after[k].uid == r.uid && after[k].index == r.index
    {
      assert KeyOfVisible(owners, rest, InfoKey(after[k]));
      var r :| r in rest && Visible(owners, r) && KeyOf(r) == InfoKey(after[k]);
    }
    forall k | 0 <= k < |list| ensures after[k].uid == list[k].uid && after[k].index == list[k].index {
      assert InfoKey(after[k]) == InfoKey(list[k]);
    }
  }

  lemma ExtendsLength(list: seq<Info>, after: seq<Info>, owners: int -> string, rest: seq<Row>)
    requires Extends(list, after, owners, rest)
    ensures |list| <= |after| && forall k :: 0 <= k < |list| ==> InfoKey(after[k]) == InfoKey(list[k])
  {
  }

  lemma CursorSplits(users: int -> string, cursor: seq<Row>, n: nat)
    requires n <= |cursor|
    ensures cursor[..n] + cursor[n..] == cursor && OwnersOf(users, Owners(users, cursor), cursor)
  {
  }

  /** The entries for the rows of the uid -1 stay at the start of the list, and are the only ones
      of this uid. */
  lemma NobodysEntries(users: int -> string, cursor: seq<Row>, n: nat)
    requires Sorted(cursor) && Typed(cursor) && n <= |cursor| && Typed(cursor[..n])
    requires (forall r :: r in cursor[..n] ==> r.uid == -1) && forall r :: r in cursor[n..] ==> r.uid > -1
    ensures IsIndex(Owners(users, cursor[..n]), cursor[..n], Run(users, cursor[..n]).list)
    ensures Extends(Run(users, cursor[..n]).list, Run(users, cursor).list, Owners(users, cursor), cursor[n..])
    ensures OwnEntries(Run(users, cursor).list) == |Run(users, cursor[..n]).list|
  {
    var owners, own, list := Owners(users, cursor), Run(users, cursor[..n]).list, Run(users, cursor).list;
    hide *;
    CursorSplits(users, cursor, n);
    SortedPrefix(cursor, n);
    OneUserIndex(users, cursor[..n], -1);
    LaterRows(users, owners, cursor[..n], cursor[n..]);
    OwnUids(Owners(users, cursor[..n]), cursor[..n], own);
    OthersUids(own, list, owners, cursor[n..]);
    ExtendsLength(own, list, owners, cursor[n..]);
    OwnEntriesAre(list, |own|);
  }

  /** What the rows of the uid -1 in a whole answer list is what the uid -1 uses. */
  lemma NobodysUsed(users: int -> string, rows: seq<Row>, whole: seq<Row>, n: nat, biotype: int, driver: string)
    requires biotype >= 0 && Answers(whole, AllocatorRange(-1, biotype, driver, 0, -1), rows)
    requires Typed(whole) && n <= |whole| && Typed(whole[..n])
    requires (forall r :: r in whole[..n] ==> r.uid == -1) && forall r :: r in whole[n..] ==> r.uid > -1
    ensures Increasing(Run(users, whole[..n]).list, 0)
    ensures forall i :: Lists(Run(users, whole[..n]).list, i) <==>
      InBounds(i, 0, -1) && Used(WithNobody(users), rows, -1, biotype, driver, i)
  {
    var own := whole[..n];
    AnswersContain(whole, AllocatorRange(-1, biotype, driver, 0, -1), rows);
    assert whole == own + whole[n..];
    forall r ensures r in own <==>
      r in rows && KeyOf(r) == Key(-1, biotype, driver, r.index) && InBounds(r.index, 0, -1)
    {
      assert r in whole <==> r in own || r in whole[n..];
    }
    forall r | r in own ensures Visible(Owners(users, own), r) <==> Visible(WithNobody(users), r) {
      NobodysOwners(users, whole, n, r);
    }
    assert Sorted(whole);
    hide *;
    SortedPrefix(whole, n);
    OneUserIndex(users, own, -1);
    IndexListsUsed(WithNobody(users), Owners(users, own), rows, own, Run(users, own).list, -1, biotype, driver, 0, -1);
  }

  /** The own indices are a run from 0, no index of another user is above the counter of the
      scan, and the last one is below the end of the run. */
  predicate MissesOwnRun(list: seq<Info>) {
    && OwnEntries(list) < |list| && Contiguous(Own(list), 0)
    && !Scanned(list, 0).gap && list[|list| - 1].index + 1 < OwnEntries(list)
  }

  /** When the choice from a list for the uid -1 is taken: the list ends before the first gap of
      its own entries, or the scan runs past an unbroken run of them and ends below. */
  predicate ChoosesUsed(list: seq<Info>, free: int) {
    if OwnEntries(list) == |list| then |list| < free else MissesOwnRun(list)
  }

  /** The list of a part of the answer that ends within the rows of the uid -1. */
  lemma ShortChoice(users: int -> string, rows: seq<Row>, own: seq<Info>, list: seq<Info>, biotype: int,
                    driver: string, free: int)
    requires Increasing(own, 0) && |list| <= |own|
    requires forall k :: 0 <= k < |list| ==> InfoKey(list[k]) == InfoKey(own[k]) && list[k].uid == -1
    requires forall i :: Lists(own, i) <==> InBounds(i, 0, -1) && Used(WithNobody(users), rows, -1, biotype, driver, i)
    requires IsLeastUnused(WithNobody(users), rows, -1, biotype, driver, 0, free)
    ensures Used(WithNobody(users), rows, -1, biotype, driver, EmptyIndex(list, 0, -1)) <==> ChoosesUsed(list, free)
  {
    OwnEntriesAre(list, |list|);
    UsedIsListed(WithNobody(users), rows, own, -1, biotype, driver, free);
    hide Used; hide Lists; hide EmptyIndex; hide MissesOwnRun; hide OwnEntries;
    forall k | 0 <= k < |list| ensures list[k].index == own[k].index {
      assert InfoKey(list[k]) == InfoKey(own[k]);
    }
    CutShort(own, list, free);
  }

  /** The list of a part that goes on with rows of others, some of which are listed. */
  lemma LongChoice(users: int -> string, rows: seq<Row>, own: seq<Info>, list: seq<Info>, biotype: int,
                   driver: string, free: int)
    requires Increasing(own, 0) && OwnEntries(list) == |own| < |list|
    requires forall k :: 0 <= k < |own| ==> InfoKey(list[k]) == InfoKey(own[k])
    requires forall k :: |own| <= k < |list| ==> list[k].index >= 0
    requires forall i :: Lists(own, i) <==> InBounds(i, 0, -1) && Used(WithNobody(users), rows, -1, biotype, driver, i)
    ensures Used(WithNobody(users), rows, -1, biotype, driver, EmptyIndex(list, 0, -1)) <==> ChoosesUsed(list, free)
  {
    hide Used; hide EmptyIndex; hide MissesOwnRun; hide OwnEntries;
    var first := Own(list);
    forall k | 0 <= k < |own| ensures first[k].index == own[k].index == list[k].index && list[k].index >= 0 {
      assert InfoKey(list[k]) == InfoKey(own[k]);
    }
    SameIndices(first, own);
    hide Lists; hide Increasing;
    ScanDecides(list);
    ChoiceIsNatural(list);
  }

  lemma SameIndices(a: seq<Info>, b: seq<Info>)
    requires |a| == |b| && forall k :: 0 <= k < |a| ==> a[k].index == b[k].index
    ensures Increasing(b, 0) ==> Increasing(a, 0)
    ensures forall i :: Lists(a, i) <==> Lists(b, i)
  {
    forall i ensures Lists(a, i) <==> Lists(b, i) {
      if k :| 0 <= k < |a| && a[k].index == i {
        assert b[k].index == i;
      }
      if k :| 0 <= k < |b| && b[k].index == i {
        assert a[k].index == i;
      }
    }
  }

  lemma NobodyLower(whole: seq<Row>, cursor: seq<Row>)
    requires Sorted(whole) && cursor <= whole && cursor != [] && NobodyFirst(cursor)
    ensures NobodyFirst(whole)
  {
    FirstIsLeast(whole);
    assert cursor[0] in cursor && whole[0] == cursor[0];
  }

  lemma NothingDelivered(users: int -> string, rows: seq<Row>, biotype: int, driver: string, free: int)
    requires IsLeastUnused(WithNobody(users), rows, -1, biotype, driver, 0, free)
    ensures
      var list := Run(users, []).list;
      Used(WithNobody(users), rows, -1, biotype, driver, EmptyIndex(list, 0, -1)) <==> ChoosesUsed(list, free)
  {
    hide Used;
  }

  /** For the uid -1 the query lists the features of all users. However many rows of lower uids
      there are not, and whatever part of the answer is delivered, the choice is taken if and only
      if that list chooses a used index: then it stops too early, or the scan runs past its own
      indices into those of others and ends with a lower one. */
  lemma NobodysChoice(users: int -> string, rows: seq<Row>, cursor: seq<Row>, biotype: int, driver: string, free: int)
    requires biotype >= 0 && Typed(cursor) && Delivers(cursor, AllocatorRange(-1, biotype, driver, 0, -1), rows)
    requires NobodyFirst(cursor)
    requires IsLeastUnused(WithNobody(users), rows, -1, biotype, driver, 0, free)
    ensures
      var list := Run(users, cursor).list;
      Used(WithNobody(users), rows, -1, biotype, driver, EmptyIndex(list, 0, -1)) <==> ChoosesUsed(list, free)
  {
    var q := AllocatorRange(-1, biotype, driver, 0, -1);
    if cursor == [] {
      NothingDelivered(users, rows, biotype, driver, free);
    } else {
      var whole := WholeIs(cursor, q, rows);
      WholeTyped(whole, q, rows);
      hide *;
      NobodyLower(whole, cursor);
      var n := NobodysRows(whole);
      TypedPrefix(whole, n);
      NobodysUsed(users, rows, whole, n, biotype, driver);
      if |cursor| <= n {
        FirstChoices(users, rows, whole, cursor, n, biotype, driver, free);
      } else {
        LaterChoices(users, rows, whole, cursor, n, biotype, driver, free);
      }
    }
  }

  lemma WholeTyped(whole: seq<Row>, q: Range, rows: seq<Row>)
    requires q.biotype >= 0 && Answers(whole, q, rows)
    ensures Sorted(whole) && Typed(whole) && forall r :: r in whole ==> r.index >= q.start
  {
    AnswersContain(whole, q, rows);
  }

  lemma FirstChoices(users: int -> string, rows: seq<Row>, whole: seq<Row>, cursor: seq<Row>, n: nat, biotype: int,
                     driver: string, free: int)
    requires Sorted(whole) && Typed(whole) && Typed(cursor) && |cursor| <= n <= |whole| && cursor <= whole
    requires Typed(whole[..n]) && Increasing(Run(users, whole[..n]).list, 0)
    requires forall r :: r in whole[..n] ==> r.uid == -1
    requires forall i :: Lists(Run(users, whole[..n]).list, i) <==>
      InBounds(i, 0, -1) && Used(WithNobody(users), rows, -1, biotype, driver, i)
    requires IsLeastUnused(WithNobody(users), rows, -1, biotype, driver, 0, free)
    ensures
      var list := Run(users, cursor).list;
      Used(WithNobody(users), rows, -1, biotype, driver, EmptyIndex(list, 0, -1)) <==> ChoosesUsed(list, free)
  {
    var own, list := Run(users, whole[..n]).list, Run(users, cursor).list;
    assert cursor <= whole[..n] && forall r :: r in cursor ==> r in whole[..n];
    hide Run; hide Typed; hide RowLeq; hide IsLeastUnused; hide Lists; hide Used; hide InBounds; hide Increasing;
    hide ChoosesUsed; hide EmptyIndex; hide IsEntry; hide KeyLess;
    SortedPrefix(whole, n);
    CutShortList(users, whole[..n], cursor, -1);
    OneUserIndex(users, whole[..n], -1);
    forall k: nat | k < |list| ensures list[k].uid == -1 {
      var r := EntryHasRow(Owners(users, whole[..n]), whole[..n], own, k);
      assert InfoKey(list[k]) == KeyOf(r);
    }
    ShortChoice(users, rows, own, list, biotype, driver, free);
  }

  lemma LaterChoices(users: int -> string, rows: seq<Row>, whole: seq<Row>, cursor: seq<Row>, n: nat, biotype: int,
                     driver: string, free: int)
    requires Sorted(whole) && Typed(whole) && Typed(cursor) && n < |cursor| && cursor <= whole
    requires Typed(whole[..n]) && Increasing(Run(users, whole[..n]).list, 0)
    requires (forall r :: r in whole[..n] ==> r.uid == -1) && forall r :: r in whole[n..] ==> r.uid > -1
    requires forall r :: r in whole ==> r.index >= 0
    requires forall i :: Lists(Run(users, whole[..n]).list, i) <==>
      InBounds(i, 0, -1) && Used(WithNobody(users), rows, -1, biotype, driver, i)
    requires IsLeastUnused(WithNobody(users), rows, -1, biotype, driver, 0, free)
    ensures
      var list := Run(users, cursor).list;
      Used(WithNobody(users), rows, -1, biotype, driver, EmptyIndex(list, 0, -1)) <==> ChoosesUsed(list, free)
  {
    var own, list := Run(users, whole[..n]).list, Run(users, cursor).list;
    hide *;
    RestOfPrefix(whole, cursor, n);
    SortedPrefix(whole, |cursor|);
    NobodysEntries(users, cursor, n);
    OthersUids(own, list, Owners(users, cursor), cursor[n..]);
    ExtendsLength(own, list, Owners(users, cursor), cursor[n..]);
    if |list| == |own| {
      OwnKeys(own, list);
      ShortChoice(users, rows, own, list, biotype, driver, free);
    } else {
      LongChoice(users, rows, own, list, biotype, driver, free);
    }
  }

  lemma RestOfPrefix(whole: seq<Row>, cursor: seq<Row>, n: nat)
    requires cursor <= whole && n <= |cursor|
    ensures cursor == whole[..|cursor|] && cursor[..n] == whole[..n]
    ensures forall r :: r in cursor[n..] ==> r in whole[n..] && r in whole
  {
    forall r | r in cursor[n..] ensures r in whole[n..] && r in whole {
      var k :| 0 <= k < |cursor| - n && cursor[n..][k] == r;
      assert whole[n..][k] == r && whole[n + k] == r;
    }
  }

  lemma OwnKeys(own: seq<Info>, list: seq<Info>)
    requires |list| == |own| == OwnEntries(list)
    ensures forall k :: 0 <= k < |list| ==> list[k].uid == -1
  {
  }

  lemma ScanDecides(list: seq<Info>)
    requires Increasing(Own(list), 0) && forall k :: 0 <= k < |list| ==> list[k].index >= 0
    ensures Lists(Own(list), EmptyIndex(list, 0, -1)) <==> MissesOwnRun(list)
  {
    var n := OwnEntries(list);
    hide Increasing; hide Contiguous; hide Lists; hide EmptyIndex; hide Scanned; hide OwnEntries;
    assert list[..n] + list[n..] == list;
    ScanOverOthers(list[..n], list[n..]);
  }

  lemma {:induction false} CounterIsNatural(list: seq<Info>)
    ensures Scanned(list, 0).empty >= 0
  {
    if |list| > 0 {
      CounterIsNatural(list[..|list| - 1]);
    }
  }

  lemma ChoiceIsNatural(list: seq<Info>)
    requires forall k :: 0 <= k < |list| ==> list[k].index >= 0
    ensures EmptyIndex(list, 0, -1) >= 0
  {
    CounterIsNatural(list);
  }

  // ---------- Any uid ----------

  /** When the choice from a list is taken, `free` being the least unused index. */
  predicate TakesUsed(uid: int, list: seq<Info>, free: int) {
    if uid == -1 then ChoosesUsed(list, free) else |list| < free
  }

  lemma UsedByStored(users: int -> string, rows: seq<Row>, uid: int, biotype: int, driver: string, index: int)
    requires uid != -1
    ensures Used(WithNobody(users), rows, uid, biotype, driver, index) <==>
      Used(users, rows, uid, biotype, driver, index)
  {
  }

  /** An automatic choice, whatever part of the answer is delivered. */
  lemma ChoiceTaken(users: int -> string, rows: seq<Row>, cursor: seq<Row>, uid: int, biotype: int, driver: string,
                    free: int)
    requires biotype >= 0 && Typed(cursor) && Delivers(cursor, AllocatorRange(uid, biotype, driver, 0, -1), rows)
    requires uid == -1 ==> NobodyFirst(cursor)
    requires IsLeastUnused(WithNobody(users), rows, uid, biotype, driver, 0, free)
    ensures
      var list := Run(users, cursor).list;
      Used(WithNobody(users), rows, uid, biotype, driver, EmptyIndex(list, 0, -1)) <==> TakesUsed(uid, list, free)
  {
    hide Used; hide Delivers; hide ChoosesUsed; hide EmptyIndex; hide Run; hide Typed;
    if uid == -1 {
      NobodysChoice(users, rows, cursor, biotype, driver, free);
    } else {
      forall i ensures
        Used(WithNobody(users), rows, uid, biotype, driver, i) <==> Used(users, rows, uid, biotype, driver, i)
      {
        UsedByStored(users, rows, uid, biotype, driver, i);
      }
      ChoiceIsFree(users, rows, cursor, uid, biotype, driver, free);
    }
  }

  function MaxIndex(rows: seq<Row>): (m: int)
    ensures forall r :: r in rows ==> r.index <= m
  {
    if |rows| == 0 then 0
    else
      var m, r := MaxIndex(rows[..|rows| - 1]), rows[|rows| - 1];
      if r.index > m then r.index else m
  }

  lemma LeastUnusedExists(users: int -> string, rows: seq<Row>, uid: int, biotype: int, driver: string)
    returns (free: int)
    ensures IsLeastUnused(users, rows, uid, biotype, driver, 0, free)
  {
    free := 0;
    while Used(users, rows, uid, biotype, driver, free)
      invariant free >= 0 && forall i :: 0 <= i < free ==> Used(users, rows, uid, biotype, driver, i)
      decreases MaxIndex(rows) - free
    {
      free := free + 1;
    }
  }
}
