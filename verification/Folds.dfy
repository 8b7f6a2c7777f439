/** Folding a sequence with a step that may fail. */
module Folds {
  import opened Wrappers

  /** The state after the first `n` elements, unless one of them was refused. */
  function Fold<T, R>(step: (T, R) -> Option<T>, t: T, rows: seq<R>, n: nat): Option<T>
    requires n <= |rows|
  {
    if n == 0 then Some(t)
    else
      match Fold(step, t, rows, n - 1)
      case None => None
      case Some(before) => step(before, rows[n - 1])
  }

  /** A fold that stopped stays stopped. */
  lemma {:induction false} FoldStops<T, R>(step: (T, R) -> Option<T>, t: T, rows: seq<R>, m: nat, n: nat)
    requires m <= n <= |rows| && Fold(step, t, rows, m).None?
    ensures Fold(step, t, rows, n).None?
  {
    if m < n {
      FoldStops(step, t, rows, m, n - 1);
    }
  }

  /** When acceptance does not depend on the state, a fold succeeds exactly on accepted elements. */
  lemma {:induction false} FoldAccepts<T(!new), R(!new)>(step: (T, R) -> Option<T>, accepted: R -> bool, t: T,
      rows: seq<R>, n: nat)
    requires n <= |rows|
    requires forall u, row :: step(u, row).Some? <==> accepted(row)
    ensures Fold(step, t, rows, n).Some? <==> forall i | 0 <= i < n :: accepted(rows[i])
  {
    if n > 0 {
      FoldAccepts(step, accepted, t, rows, n - 1);
    }
  }

  /** What every step keeps, the fold keeps. */
  lemma {:induction false} FoldKeeps<T(!new), R(!new)>(step: (T, R) -> Option<T>, good: T -> bool, t: T, rows: seq<R>,
      n: nat)
    requires n <= |rows| && good(t) && Fold(step, t, rows, n).Some?
    requires forall u, row | good(u) && step(u, row).Some? :: good(step(u, row).value)
    ensures good(Fold(step, t, rows, n).value)
  {
    if n > 0 {
      FoldKeeps(step, good, t, rows, n - 1);
    }
  }

  /** Position of the last of the first `n` elements that `hit` holds for. */
  function LastHit<R>(hit: R -> bool, rows: seq<R>, n: nat): (r: Option<nat>)
    requires n <= |rows|
    ensures r.Some? ==> r.value < n && hit(rows[r.value])
    ensures forall j | (if r.Some? then r.value + 1 else 0) <= j < n :: !hit(rows[j])
  {
    if n == 0 then None
    else if hit(rows[n - 1]) then Some(n - 1)
    else LastHit(hit, rows, n - 1)
  }

  /** When a step overwrites what `at` observes for the elements that are hits and leaves it for the others,
      the fold shows the last hit. */
  lemma {:induction false} FoldShowsLast<T(!new), R(!new), S>(step: (T, R) -> Option<T>, at: T -> S, hit: R -> bool,
      form: R -> S, t: T, rows: seq<R>, n: nat)
    requires n <= |rows| && Fold(step, t, rows, n).Some?
    requires forall u, row | step(u, row).Some? :: at(step(u, row).value) == if hit(row) then form(row) else at(u)
    ensures
      var last := LastHit(hit, rows, n);
      at(Fold(step, t, rows, n).value) == if last.Some? then form(rows[last.value]) else at(t)
  {
    if n > 0 {
      FoldShowsLast(step, at, hit, form, t, rows, n - 1);
    }
  }
}
