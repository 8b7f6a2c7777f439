/** Pruning the HTTP cache to an entry limit and a byte limit. */
module CacheRetention {
  import opened Wrappers
  import opened Text
  import opened Sorting
  import opened Rows

  /** Times are compared as text. */
  datatype CacheRow = CacheRow(key: string, rowid: nat, retrievedAt: string, staleAt: string, bytes: int)

  /** ORDER BY retrieved_at DESC, rowid DESC does not put `b` before `a`. */
  predicate NewerOrSame(a: CacheRow, b: CacheRow) {
    LexLess(b.retrievedAt, a.retrievedAt) || (a.retrievedAt == b.retrievedAt && a.rowid >= b.rowid)
  }

  // ----- the window functions -----

  /** The rows that are at least as new as `row`: its ROW_NUMBER(). */
  function Position(rows: seq<CacheRow>, row: CacheRow): nat {
    if rows == [] then 0
    else Position(rows[..|rows| - 1], row) + (if NewerOrSame(rows[|rows| - 1], row) then 1 else 0)
  }

  /** Their payload bytes: SUM(payload_bytes) OVER the preceding rows. */
  function RetainedBytes(rows: seq<CacheRow>, row: CacheRow): int {
    if rows == [] then 0
    else RetainedBytes(rows[..|rows| - 1], row) + (if NewerOrSame(rows[|rows| - 1], row) then rows[|rows| - 1].bytes
        else 0)
  }

  function Unexpired(rows: seq<CacheRow>, now: string): seq<CacheRow> {
    Filter((row: CacheRow) => !LexLe(row.staleAt, now), rows)
  }

  predicate Fits(rows: seq<CacheRow>, maxEntries: nat, maxBytes: nat, row: CacheRow) {
    !(Position(rows, row) > maxEntries || RetainedBytes(rows, row) > maxBytes)
  }

  function Fitting(rows: seq<CacheRow>, maxEntries: nat, maxBytes: nat): seq<CacheRow> {
    Filter((row: CacheRow) => Fits(rows, maxEntries, maxBytes, row), rows)
  }

  function Kept(rows: seq<CacheRow>, now: string, maxEntries: nat, maxBytes: nat): seq<CacheRow> {
    Fitting(Unexpired(rows, now), maxEntries, maxBytes)
  }

  // ----- what pruning is for, told from the fields of the rows -----

  function TotalBytes(rows: seq<CacheRow>): int {
    if rows == [] then 0 else TotalBytes(rows[..|rows| - 1]) + rows[|rows| - 1].bytes
  }

  /** The first `k` rows are within both limits. */
  predicate Within(order: seq<CacheRow>, k: nat, maxEntries: nat, maxBytes: nat)
    requires k <= |order|
  {
    k <= maxEntries && TotalBytes(order[..k]) <= maxBytes
  }

  ghost predicate Newer(a: CacheRow, b: CacheRow) {
    LexLess(b.retrievedAt, a.retrievedAt) || (a.retrievedAt == b.retrievedAt && a.rowid > b.rowid)
  }

  /** `order` lists the rows that are not stale yet, newest first. */
  ghost predicate NewestFresh(rows: seq<CacheRow>, now: string, order: seq<CacheRow>) {
    && (forall row :: row in order <==> row in rows && LexLess(now, row.staleAt))
    && (forall i, j | 0 <= i < j < |order| :: Newer(order[i], order[j]))
  }

  /** No longer prefix than the first `k` rows is within both limits. */
  ghost predicate LongestWithin(order: seq<CacheRow>, k: nat, maxEntries: nat, maxBytes: nat) {
    && k <= |order| && Within(order, k, maxEntries, maxBytes)
    && forall j | k < j <= |order| :: !Within(order, j, maxEntries, maxBytes)
  }

  ghost predicate KeepsLongest(rows: seq<CacheRow>, now: string, maxEntries: nat, maxBytes: nat, left: seq<CacheRow>) {
    exists order: seq<CacheRow>, k: nat ::
      && NewestFresh(rows, now, order) && LongestWithin(order, k, maxEntries, maxBytes)
      && forall row :: row in left <==> row in order[..k]
  }

  lemma PrunedRows(rows: seq<CacheRow>, now: string, maxEntries: nat, maxBytes: nat)
    ensures forall row | row in Kept(rows, now, maxEntries, maxBytes) :: row in rows && LexLess(now, row.staleAt)
    ensures DistinctIds(rows) && NonNegative(rows) ==>
      KeepsLongest(rows, now, maxEntries, maxBytes, Kept(rows, now, maxEntries, maxBytes))
  {
    var current := Unexpired(rows, now);
    forall row | row in Kept(rows, now, maxEntries, maxBytes) ensures row in rows && LexLess(now, row.staleAt) {
      FilterMembers((r: CacheRow) => Fits(current, maxEntries, maxBytes, r), current, row);
      FilterMembers((r: CacheRow) => !LexLe(r.staleAt, now), rows, row);
    }
    if DistinctIds(rows) && NonNegative(rows) {
      var order, k := KeptIsLongestPrefix(rows, now, maxEntries, maxBytes);
    }
  }

  class CacheStore {
    var rows: seq<CacheRow>

    constructor (rows: seq<CacheRow>)
      ensures this.rows == rows
    {
      this.rows := rows;
    }

    /** PruneCache: delete expired rows, then those beyond a limit; the result counts both. */
    method PruneCache(now: string, maxEntries: int, maxBytes: int) returns (r: Result<nat, string>)
      modifies this
      ensures r.Ok? <==> maxEntries >= 0 && maxBytes >= 0
      ensures r.Err? ==> rows == old(rows)
      ensures r.Ok? ==> rows == Kept(old(rows), now, maxEntries, maxBytes) && r.value + |rows| == |old(rows)|
      ensures r.Ok? ==> forall row | row in rows :: row in old(rows) && LexLess(now, row.staleAt)
      ensures r.Ok? && DistinctIds(old(rows)) && NonNegative(old(rows)) ==>
        KeepsLongest(old(rows), now, maxEntries, maxBytes, rows)
    {
      if maxEntries < 0 || maxBytes < 0 {
        return Err("cache retention limits must not be negative");
      }
      FilterShrinks((row: CacheRow) => !LexLe(row.staleAt, now), rows);
      var unexpired := Unexpired(rows, now);
      var expiredCount := |rows| - |unexpired|;
      FilterShrinks((row: CacheRow) => Fits(unexpired, maxEntries, maxBytes, row), unexpired);
      var fitting := Fitting(unexpired, maxEntries, maxBytes);
      var evictedCount := |unexpired| - |fitting|;
      PrunedRows(rows, now, maxEntries, maxBytes);
      rows := fitting;
      return Ok(expiredCount + evictedCount);
    }

    /** An immediate second run at the same clock removes nothing. */
    method PruneCacheTwice(now: string, maxEntries: nat, maxBytes: nat) returns (second: Result<nat, string>)
      requires forall i | 0 <= i < |rows| :: rows[i].bytes >= 0
      modifies this
      ensures second == Ok(0)
      ensures rows == Kept(old(rows), now, maxEntries, maxBytes)
    {
      var first := PruneCache(now, maxEntries, maxBytes);
      KeptIsSettled(old(rows), now, maxEntries, maxBytes);
      second := PruneCache(now, maxEntries, maxBytes);
    }
  }

  // ----- newest first -----

  ghost predicate DistinctIds(rows: seq<CacheRow>) {
    forall i, j | 0 <= i < j < |rows| :: rows[i].rowid != rows[j].rowid
  }

  ghost predicate NonNegative(rows: seq<CacheRow>) {
    forall i | 0 <= i < |rows| :: rows[i].bytes >= 0
  }

  lemma NewestFirstIsOrder()
    ensures TotalPreorder(NewerOrSame)
  {
    forall a: CacheRow, b: CacheRow ensures NewerOrSame(a, b) || NewerOrSame(b, a) {
      LexTotal(a.retrievedAt, b.retrievedAt);
      if LexLe(a.retrievedAt, b.retrievedAt) && LexLe(b.retrievedAt, a.retrievedAt) {
        LexAntisymmetric(a.retrievedAt, b.retrievedAt);
      }
    }
    forall a: CacheRow, b: CacheRow, c: CacheRow | NewerOrSame(a, b) && NewerOrSame(b, c) ensures NewerOrSame(a, c) {
      LexTotal(b.retrievedAt, c.retrievedAt);
      LexTotal(a.retrievedAt, b.retrievedAt);
      if LexLe(a.retrievedAt, c.retrievedAt) {
        if a.retrievedAt != b.retrievedAt {
          LexTransitive(c.retrievedAt, b.retrievedAt, a.retrievedAt);
          if b.retrievedAt != c.retrievedAt {
            LexTransitive(a.retrievedAt, c.retrievedAt, b.retrievedAt);
          }
        } else if b.retrievedAt != c.retrievedAt {
          assert false;
        }
      }
    }
  }

  function NewestFirst(rows: seq<CacheRow>): seq<CacheRow> {
    Sort(NewerOrSame, rows)
  }

  /** The window functions read a row's position off the sorted rows. */
  lemma {:induction false} WindowCons(x: CacheRow, rows: seq<CacheRow>, row: CacheRow)
    ensures Position([x] + rows, row) == Position(rows, row) + (if NewerOrSame(x, row) then 1 else 0)
    ensures RetainedBytes([x] + rows, row) == RetainedBytes(rows, row) + (if NewerOrSame(x, row) then x.bytes else 0)
  {
    if rows == [] {
      assert ([x] + rows)[..0] == [];
    } else {
      WindowCons(x, rows[..|rows| - 1], row);
      assert ([x] + rows)[..|rows|] == [x] + rows[..|rows| - 1];
    }
  }

  lemma {:induction false} WindowInsert(x: CacheRow, rows: seq<CacheRow>, row: CacheRow)
    ensures Position(Insert(NewerOrSame, x, rows), row) == Position([x] + rows, row)
    ensures RetainedBytes(Insert(NewerOrSame, x, rows), row) == RetainedBytes([x] + rows, row)
  {
    if rows != [] && !NewerOrSame(x, rows[0]) {
      WindowInsert(x, rows[1..], row);
      WindowCons(x, rows, row);
      WindowCons(x, rows[1..], row);
      WindowCons(rows[0], Insert(NewerOrSame, x, rows[1..]), row);
      WindowCons(rows[0], rows[1..], row);
      assert rows == [rows[0]] + rows[1..];
    }
  }

  lemma {:induction false} WindowSort(rows: seq<CacheRow>, row: CacheRow)
    ensures Position(NewestFirst(rows), row) == Position(rows, row)
    ensures RetainedBytes(NewestFirst(rows), row) == RetainedBytes(rows, row)
  {
    if rows != [] {
      WindowSort(rows[1..], row);
      WindowInsert(rows[0], NewestFirst(rows[1..]), row);
      WindowCons(rows[0], NewestFirst(rows[1..]), row);
      WindowCons(rows[0], rows[1..], row);
      assert rows == [rows[0]] + rows[1..];
    }
  }

  lemma {:induction false} WindowPrefix(rows: seq<CacheRow>, row: CacheRow, k: nat)
    requires k <= |rows|
    requires forall j | 0 <= j < |rows| :: NewerOrSame(rows[j], row) <==> j < k
    ensures Position(rows, row) == k && RetainedBytes(rows, row) == TotalBytes(rows[..k])
  {
    if rows != [] {
      var init := rows[..|rows| - 1];
      if k == |rows| {
        WindowPrefix(init, row, k - 1);
        assert rows[..k][..k - 1] == init[..k - 1] == init;
        assert rows[..k] == rows;
      } else {
        WindowPrefix(init, row, k);
        assert init[..k] == rows[..k];
      }
    }
  }

  lemma RowsInOrder(rows: seq<CacheRow>, i: nat)
    requires DistinctIds(rows) && i < |NewestFirst(rows)|
    ensures
      var row := NewestFirst(rows)[i];
      Position(rows, row) == i + 1 && RetainedBytes(rows, row) == TotalBytes(NewestFirst(rows)[..i + 1])
  {
    NewestFirstIsOrder();
    SortSorts(NewerOrSame, rows);
    DistinctAfterSort(rows);
    var order := NewestFirst(rows);
    var row := order[i];
    forall j | 0 <= j < |order| ensures NewerOrSame(order[j], row) <==> j < i + 1 {
      LexTotal(row.retrievedAt, row.retrievedAt);
      if j > i {
        assert NewerOrSame(order[i], order[j]) && order[i].rowid != order[j].rowid;
        LexTotal(order[i].retrievedAt, order[j].retrievedAt);
      } else if j < i {
        assert NewerOrSame(order[j], order[i]);
      }
    }
    WindowPrefix(order, row, i + 1);
    WindowSort(rows, row);
  }

  lemma DistinctAfterSort(rows: seq<CacheRow>)
    requires DistinctIds(rows)
    ensures DistinctIds(NewestFirst(rows))
  {
    NewestFirstIsOrder();
    DistinctStays(rows);
  }

  lemma {:induction false} DistinctStays(rows: seq<CacheRow>)
    requires DistinctIds(rows)
    ensures DistinctIds(NewestFirst(rows))
  {
    if rows != [] {
      DistinctStays(rows[1..]);
      SortKeepsMembers(NewerOrSame, rows[1..]);
      var rest := NewestFirst(rows[1..]);
      forall j | 0 <= j < |rest| ensures rest[j].rowid != rows[0].rowid {
        assert rest[j] in rest;
        var k :| 0 <= k < |rows[1..]| && rows[1..][k] == rest[j];
        assert rows[k + 1] == rest[j];
      }
      DistinctInsert(rows[0], rest);
    }
  }

  lemma {:induction false} DistinctInsert(x: CacheRow, rows: seq<CacheRow>)
    requires DistinctIds(rows) && forall j | 0 <= j < |rows| :: rows[j].rowid != x.rowid
    ensures DistinctIds(Insert(NewerOrSame, x, rows))
  {
    if rows != [] && !NewerOrSame(x, rows[0]) {
      DistinctInsert(x, rows[1..]);
      InsertMembers(NewerOrSame, x, rows[1..]);
      var rest := Insert(NewerOrSame, x, rows[1..]);
      forall j | 0 <= j < |rest| ensures rest[j].rowid != rows[0].rowid {
        assert rest[j] in rest;
        if rest[j] != x {
          var k :| 0 <= k < |rows[1..]| && rows[1..][k] == rest[j];
          assert rows[k + 1] == rest[j];
        }
      }
    }
  }

  lemma BytesGrow(order: seq<CacheRow>, i: nat, j: nat)
    requires NonNegative(order) && i <= j <= |order|
    ensures TotalBytes(order[..i]) <= TotalBytes(order[..j])
  {
    if i < j {
      BytesGrow(order, i, j - 1);
      assert order[..j][..j - 1] == order[..j - 1];
    }
  }

  /**
   Pruning keeps exactly the longest newest-first prefix of the unexpired rows that is
   within both limits.
   */
  lemma KeptIsLongestPrefix(rows: seq<CacheRow>, now: string, maxEntries: nat, maxBytes: nat)
    returns (order: seq<CacheRow>, k: nat)
    requires DistinctIds(rows) && NonNegative(rows)
    ensures NewestFresh(rows, now, order) && LongestWithin(order, k, maxEntries, maxBytes)
    ensures forall row :: row in Kept(rows, now, maxEntries, maxBytes) <==> row in order[..k]
  {
    var current := Unexpired(rows, now);
    order := NewestFirst(current);
    UnexpiredRows(rows, now);
    SortKeepsMembers(NewerOrSame, current);
    NonNegativeOrder(current);
    k := 0;
    while k < |order| && Within(order, k + 1, maxEntries, maxBytes)
      invariant k <= |order| && Within(order, k, maxEntries, maxBytes)
    {
      k := k + 1;
    }
    forall j | k < j <= |order| ensures !Within(order, j, maxEntries, maxBytes) {
      BytesGrow(order, k + 1, j);
    }
    forall row ensures row in Kept(rows, now, maxEntries, maxBytes) <==> row in order[..k] {
      FilterMembers((r: CacheRow) => Fits(current, maxEntries, maxBytes, r), current, row);
      FitsIffInPrefix(current, k, maxEntries, maxBytes, row);
    }
    OrderIsNewestFresh(rows, now);
  }

  lemma OrderIsNewestFresh(rows: seq<CacheRow>, now: string)
    requires DistinctIds(rows) && NonNegative(rows)
    ensures NewestFresh(rows, now, NewestFirst(Unexpired(rows, now)))
  {
    var current := Unexpired(rows, now);
    var order := NewestFirst(current);
    UnexpiredRows(rows, now);
    SortKeepsMembers(NewerOrSame, current);
    NewestFirstIsOrder();
    SortSorts(NewerOrSame, current);
    DistinctAfterSort(current);
    forall row ensures row in order <==> row in rows && LexLess(now, row.staleAt) {
      FilterMembers((r: CacheRow) => !LexLe(r.staleAt, now), rows, row);
    }
    forall i, j | 0 <= i < j < |order| ensures Newer(order[i], order[j]) {
      assert NewerOrSame(order[i], order[j]) && order[i].rowid != order[j].rowid;
    }
  }

  /** When all fresh rows are within both limits together, all of them stay. */
  lemma RoomForAll(rows: seq<CacheRow>, now: string, maxEntries: nat, maxBytes: nat) returns (order: seq<CacheRow>)
    requires DistinctIds(rows) && NonNegative(rows)
    ensures NewestFresh(rows, now, order)
    ensures |order| <= maxEntries && TotalBytes(order) <= maxBytes ==>
      forall row :: row in Kept(rows, now, maxEntries, maxBytes) <==> row in rows && LexLess(now, row.staleAt)
  {
    var k;
    order, k := KeptIsLongestPrefix(rows, now, maxEntries, maxBytes);
    assert order[..|order|] == order;
    if |order| <= maxEntries && TotalBytes(order) <= maxBytes {
      assert Within(order, |order|, maxEntries, maxBytes);
      assert k == |order|;
    }
  }

  lemma NonNegativeOrder(rows: seq<CacheRow>)
    requires NonNegative(rows)
    ensures NonNegative(NewestFirst(rows))
  {
    SortKeepsMembers(NewerOrSame, rows);
    forall i | 0 <= i < |NewestFirst(rows)| ensures NewestFirst(rows)[i].bytes >= 0 {
      assert NewestFirst(rows)[i] in rows;
    }
  }

  lemma UnexpiredRows(rows: seq<CacheRow>, now: string)
    requires DistinctIds(rows) && NonNegative(rows)
    ensures DistinctIds(Unexpired(rows, now)) && NonNegative(Unexpired(rows, now))
  {
    var keep := (row: CacheRow) => !LexLe(row.staleAt, now);
    FilterSorted(keep, (a: CacheRow, b: CacheRow) => a.rowid != b.rowid, rows);
    var left := Unexpired(rows, now);
    forall i | 0 <= i < |left| ensures left[i].bytes >= 0 {
      FilterMembers(keep, rows, left[i]);
    }
  }

  lemma FitsIffInPrefix(rows: seq<CacheRow>, k: nat, maxEntries: nat, maxBytes: nat, row: CacheRow)
    requires DistinctIds(rows) && NonNegative(rows)
    requires k <= |NewestFirst(rows)| && Within(NewestFirst(rows), k, maxEntries, maxBytes)
    requires forall j | k < j <= |NewestFirst(rows)| :: !Within(NewestFirst(rows), j, maxEntries, maxBytes)
    ensures row in rows && Fits(rows, maxEntries, maxBytes, row) <==> row in NewestFirst(rows)[..k]
  {
    var order := NewestFirst(rows);
    SortKeepsMembers(NewerOrSame, rows);
    NonNegativeOrder(rows);
    if row in rows {
      assert row in order;
      var i :| 0 <= i < |order| && order[i] == row;
      RowsInOrder(rows, i);
      DistinctAfterSort(rows);
      if i < k {
        BytesGrow(order, i + 1, k);
        assert order[..k][i] == row;
      } else {
        assert !Within(order, i + 1, maxEntries, maxBytes);
      }
    }
  }

  lemma OneMoreRow(rows: seq<CacheRow>, x: CacheRow, row: CacheRow)
    ensures Position(rows + [x], row) == Position(rows, row) + (if NewerOrSame(x, row) then 1 else 0)
    ensures RetainedBytes(rows + [x], row) == RetainedBytes(rows, row) + (if NewerOrSame(x, row) then x.bytes else 0)
  {
    assert (rows + [x])[..|rows|] == rows;
  }

  lemma {:induction false} FewerRows(keep: CacheRow -> bool, rows: seq<CacheRow>, row: CacheRow)
    requires NonNegative(rows)
    ensures Position(Filter(keep, rows), row) <= Position(rows, row)
    ensures RetainedBytes(Filter(keep, rows), row) <= RetainedBytes(rows, row)
  {
    if rows != [] {
      var init, last := rows[..|rows| - 1], rows[|rows| - 1];
      FewerRows(keep, init, row);
      assert rows == init + [last];
      assert last.bytes >= 0;
      OneMoreRow(init, last, row);
      FilterAppend(keep, init, last);
      if keep(last) {
        OneMoreRow(Filter(keep, init), last, row);
      } else {
        assert Filter(keep, init) + [] == Filter(keep, init);
      }
    }
  }

  /** What was kept is kept again. */
  lemma KeptIsSettled(rows: seq<CacheRow>, now: string, maxEntries: nat, maxBytes: nat)
    requires NonNegative(rows)
    ensures Kept(Kept(rows, now, maxEntries, maxBytes), now, maxEntries, maxBytes)
        == Kept(rows, now, maxEntries, maxBytes)
  {
    var young := (row: CacheRow) => !LexLe(row.staleAt, now);
    var current := Unexpired(rows, now);
    var fits := (row: CacheRow) => Fits(current, maxEntries, maxBytes, row);
    var kept := Kept(rows, now, maxEntries, maxBytes);
    forall i | 0 <= i < |current| ensures current[i].bytes >= 0 {
      FilterMembers(young, rows, current[i]);
    }
    forall i | 0 <= i < |kept| ensures young(kept[i]) && Fits(kept, maxEntries, maxBytes, kept[i]) {
      FilterMembers(fits, current, kept[i]);
      FilterMembers(young, rows, kept[i]);
      FewerRows(fits, current, kept[i]);
    }
    FilterSuffix(young, kept, 0);
    FilterSuffix((row: CacheRow) => Fits(kept, maxEntries, maxBytes, row), kept, 0);
  }
}
