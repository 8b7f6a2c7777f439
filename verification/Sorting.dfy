/** Stable sorting, as Go's `sort.SliceStable` and `sort.Strings` provide it. */
module Sorting {

  ghost predicate TotalPreorder<T(!new)>(le: (T, T) -> bool) {
    && (forall x, y :: le(x, y) || le(y, x))
    && (forall x, y, z :: le(x, y) && le(y, z) ==> le(x, z))
  }

  ghost predicate SortedBy<T>(le: (T, T) -> bool, s: seq<T>) {
    forall i, j | 0 <= i < j < |s| :: le(s[i], s[j])
  }

  /** Puts `x`, which came before every element of `s`, into the sorted sequence `s`. */
  function Insert<T>(le: (T, T) -> bool, x: T, s: seq<T>): seq<T> {
    if s == [] || le(x, s[0]) then [x] + s else [s[0]] + Insert(le, x, s[1..])
  }

  function Sort<T>(le: (T, T) -> bool, s: seq<T>): seq<T> {
    if s == [] then [] else Insert(le, s[0], Sort(le, s[1..]))
  }

  lemma {:induction false} InsertPermutes<T>(le: (T, T) -> bool, x: T, s: seq<T>)
    ensures multiset(Insert(le, x, s)) == multiset(s) + multiset{x}
    ensures |Insert(le, x, s)| == |s| + 1
  {
    if s == [] || le(x, s[0]) {
    } else {
      InsertPermutes(le, x, s[1..]);
      assert s == [s[0]] + s[1..];
    }
  }

  lemma {:induction false} SortPermutes<T>(le: (T, T) -> bool, s: seq<T>)
    ensures multiset(Sort(le, s)) == multiset(s)
    ensures |Sort(le, s)| == |s|
  {
    if s != [] {
      SortPermutes(le, s[1..]);
      InsertPermutes(le, s[0], Sort(le, s[1..]));
      assert s == [s[0]] + s[1..];
    }
  }

  lemma SortKeepsMembers<T>(le: (T, T) -> bool, s: seq<T>)
    ensures |Sort(le, s)| == |s|
    ensures forall x :: x in Sort(le, s) <==> x in s
  {
    SortPermutes(le, s);
    assert forall x :: x in Sort(le, s) <==> x in multiset(Sort(le, s));
    assert forall x :: x in s <==> x in multiset(s);
  }

  lemma {:induction false} InsertMembers<T>(le: (T, T) -> bool, x: T, s: seq<T>)
    ensures forall y :: y in Insert(le, x, s) <==> y in s || y == x
  {
    if s == [] || le(x, s[0]) {
    } else {
      InsertMembers(le, x, s[1..]);
      assert s == [s[0]] + s[1..];
    }
  }

  /** `x` may stand before `y` in a stable sort of a sequence in which `before` orders positions. */
  ghost predicate Precedes<T>(le: (T, T) -> bool, before: (T, T) -> bool, x: T, y: T) {
    le(x, y) && (le(y, x) ==> before(x, y))
  }

  ghost predicate StablySorted<T>(le: (T, T) -> bool, before: (T, T) -> bool, s: seq<T>) {
    forall i, j | 0 <= i < j < |s| :: Precedes(le, before, s[i], s[j])
  }

  lemma {:induction false} InsertStable<T(!new)>(le: (T, T) -> bool, before: (T, T) -> bool, x: T, s: seq<T>)
    requires TotalPreorder(le)
    requires StablySorted(le, before, s)
    requires forall y | y in s :: before(x, y)
    ensures StablySorted(le, before, Insert(le, x, s))
  {
    if s == [] || le(x, s[0]) {
    } else {
      InsertStable(le, before, x, s[1..]);
      InsertMembers(le, x, s[1..]);
      var t := Insert(le, x, s[1..]);
      forall j | 0 <= j < |t| ensures Precedes(le, before, s[0], t[j]) {
        assert t[j] in t;
        if t[j] != x {
          var k :| 0 <= k < |s[1..]| && s[1..][k] == t[j];
          assert s[k + 1] == t[j];
        }
      }
    }
  }

  /** Sorting orders by `le` and leaves elements that `le` does not separate in their first order. */
  lemma {:induction false} SortStable<T(!new)>(le: (T, T) -> bool, before: (T, T) -> bool, s: seq<T>)
    requires TotalPreorder(le)
    requires SortedBy(before, s)
    ensures StablySorted(le, before, Sort(le, s))
  {
    if s != [] {
      SortStable(le, before, s[1..]);
      SortKeepsMembers(le, s[1..]);
      forall y | y in Sort(le, s[1..]) ensures before(s[0], y) {
        var k :| 0 <= k < |s[1..]| && s[1..][k] == y;
        assert s[k + 1] == y;
      }
      InsertStable(le, before, s[0], Sort(le, s[1..]));
    }
  }

  lemma SortSorts<T(!new)>(le: (T, T) -> bool, s: seq<T>)
    requires TotalPreorder(le)
    ensures SortedBy(le, Sort(le, s))
  {
    SortStable(le, (x, y) => true, s);
  }

  /** The head of a stable sort is the first least element of the input. */
  lemma {:induction false} SortHead<T(!new)>(le: (T, T) -> bool, s: seq<T>) returns (i: nat)
    requires TotalPreorder(le) && s != []
    ensures i < |s| && Sort(le, s) != [] && Sort(le, s)[0] == s[i]
    ensures forall j | 0 <= j < |s| :: le(s[i], s[j])
    ensures forall j | 0 <= j < i :: !le(s[j], s[i])
  {
    i := 0;
    if |s| > 1 {
      var k := SortHead(le, s[1..]);
      if !le(s[0], s[k + 1]) {
        i := k + 1;
      }
      assert forall j | 1 <= j < |s| :: s[j] == s[1..][j - 1];
    }
  }
}
