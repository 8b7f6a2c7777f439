/** DELETE and SELECT with a condition, on the rows of a table in id order. */
module Rows {
  import opened Sorting

  function Filter<T>(keep: T -> bool, rows: seq<T>): seq<T> {
    if rows == [] then []
    else
      var last := rows[|rows| - 1];
      Filter(keep, rows[..|rows| - 1]) + (if keep(last) then [last] else [])
  }

  lemma {:induction false} FilterMembers<T>(keep: T -> bool, rows: seq<T>, x: T)
    ensures x in Filter(keep, rows) <==> x in rows && keep(x)
  {
    if rows != [] {
      FilterMembers(keep, rows[..|rows| - 1], x);
      assert rows == rows[..|rows| - 1] + [rows[|rows| - 1]];
    }
  }

  lemma {:induction false} FilterSorted<T>(keep: T -> bool, before: (T, T) -> bool, rows: seq<T>)
    requires SortedBy(before, rows)
    ensures SortedBy(before, Filter(keep, rows))
  {
    if rows != [] {
      var init, last := rows[..|rows| - 1], rows[|rows| - 1];
      FilterSorted(keep, before, init);
      var kept := Filter(keep, init);
      forall i | 0 <= i < |kept| ensures before(kept[i], last) {
        FilterMembers(keep, init, kept[i]);
        var k :| 0 <= k < |init| && init[k] == kept[i];
        assert rows[k] == kept[i];
      }
    }
  }

  lemma {:induction false} FilterTwice<T>(keep: T -> bool, also: T -> bool, rows: seq<T>)
    ensures Filter(also, Filter(keep, rows)) == Filter(keep, Filter(also, rows))
  {
    if rows != [] {
      var init, last := rows[..|rows| - 1], rows[|rows| - 1];
      FilterTwice(keep, also, init);
      FilterAppend(also, Filter(keep, init), last);
      FilterAppend(keep, Filter(also, init), last);
      assert Filter(keep, init) + [] == Filter(keep, init) && Filter(also, init) + [] == Filter(also, init);
      assert Filter(also, Filter(keep, init)) + [] == Filter(also, Filter(keep, init));
    }
  }

  lemma FilterAppend<T>(keep: T -> bool, rows: seq<T>, x: T)
    ensures Filter(keep, rows + [x]) == Filter(keep, rows) + (if keep(x) then [x] else [])
  {
    assert (rows + [x])[..|rows|] == rows;
  }

  /** A filter that, once it keeps a row, keeps every later one, keeps a suffix. */
  lemma {:induction false} FilterSuffix<T>(keep: T -> bool, rows: seq<T>, k: nat)
    requires k <= |rows|
    requires forall i | 0 <= i < |rows| :: keep(rows[i]) <==> i >= k
    ensures Filter(keep, rows) == rows[k..]
  {
    if rows != [] {
      var init := rows[..|rows| - 1];
      if k < |rows| {
        FilterSuffix(keep, init, k);
        assert rows[k..] == init[k..] + [rows[|rows| - 1]];
      } else {
        FilterSuffix(keep, init, k - 1);
      }
    }
  }

  lemma {:induction false} FirstKept<T>(keep: T -> bool, rows: seq<T>) returns (k: nat)
    requires forall i, j | 0 <= i < j < |rows| :: keep(rows[i]) ==> keep(rows[j])
    ensures k <= |rows| && forall i | 0 <= i < |rows| :: keep(rows[i]) <==> i >= k
  {
    k := 0;
    while k < |rows| && !keep(rows[k])
      invariant k <= |rows| && forall i | 0 <= i < k :: !keep(rows[i])
    {
      k := k + 1;
    }
  }

  lemma {:induction false} FilterAgrees<T>(keep: T -> bool, also: T -> bool, rows: seq<T>)
    requires forall i | 0 <= i < |rows| :: keep(rows[i]) == also(rows[i])
    ensures Filter(keep, rows) == Filter(also, rows)
  {
    if rows != [] {
      FilterAgrees(keep, also, rows[..|rows| - 1]);
    }
  }

  lemma FilterPair<T>(keep: T -> bool, x: T, y: T)
    ensures Filter(keep, [x, y]) == (if keep(x) then [x] else []) + (if keep(y) then [y] else [])
  {
    assert [] + [x] == [x] && [x] + [y] == [x, y];
    FilterAppend(keep, [], x);
    FilterAppend(keep, [x], y);
  }

  lemma {:induction false} FilterShrinks<T>(keep: T -> bool, rows: seq<T>)
    ensures |Filter(keep, rows)| <= |rows|
  {
    if rows != [] {
      FilterShrinks(keep, rows[..|rows| - 1]);
    }
  }

  /** How many of the first `n` rows a filter keeps. */
  function Rank<T>(keep: T -> bool, rows: seq<T>, n: nat): nat
    requires n <= |rows|
  {
    |Filter(keep, rows[..n])|
  }

  lemma RankNext<T>(keep: T -> bool, rows: seq<T>, i: nat)
    requires i < |rows|
    ensures Filter(keep, rows[..i + 1]) == Filter(keep, rows[..i]) + (if keep(rows[i]) then [rows[i]] else [])
  {
    assert rows[..i + 1] == rows[..i] + [rows[i]];
    FilterAppend(keep, rows[..i], rows[i]);
  }

  lemma {:induction false} FilterPrefix<T>(keep: T -> bool, rows: seq<T>, m: nat, n: nat)
    requires m <= n <= |rows|
    ensures Filter(keep, rows[..m]) <= Filter(keep, rows[..n])
  {
    if m < n {
      FilterPrefix(keep, rows, m, n - 1);
      RankNext(keep, rows, n - 1);
    }
  }

  /** A kept row stands at its rank among the kept ones. */
  lemma RankHolds<T>(keep: T -> bool, rows: seq<T>, i: nat)
    requires i < |rows| && keep(rows[i])
    ensures Rank(keep, rows, i) < |Filter(keep, rows)| && Filter(keep, rows)[Rank(keep, rows, i)] == rows[i]
  {
    RankNext(keep, rows, i);
    FilterPrefix(keep, rows, i + 1, |rows|);
    assert rows[..|rows|] == rows;
  }

  lemma RankOrder<T>(keep: T -> bool, rows: seq<T>, i: nat, j: nat)
    requires i < j <= |rows| && keep(rows[i])
    ensures Rank(keep, rows, i) < Rank(keep, rows, j)
  {
    RankNext(keep, rows, i);
    FilterPrefix(keep, rows, i + 1, j);
  }

  /** Every kept row comes from some position. */
  lemma {:induction false} RankFrom<T>(keep: T -> bool, rows: seq<T>, n: nat, k: nat) returns (i: nat)
    requires n <= |rows| && k < Rank(keep, rows, n)
    ensures i < n && keep(rows[i]) && Rank(keep, rows, i) == k
  {
    i := n - 1;
    RankNext(keep, rows, i);
    if !keep(rows[i]) || Rank(keep, rows, i) != k {
      i := RankFrom(keep, rows, n - 1, k);
    }
  }
}
