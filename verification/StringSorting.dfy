/** `sort.Strings`, and the strings of a sequence as a set. */
module StringSorting {
  import opened Text
  import opened Sorting

  ghost predicate Distinct(s: seq<string>) {
    forall i, j | 0 <= i < j < |s| :: s[i] != s[j]
  }

  function Members(s: seq<string>): set<string> {
    set x | x in s
  }

  lemma LexIsOrder()
    ensures TotalPreorder(LexLe)
  {
    forall a, b ensures LexLe(a, b) || LexLe(b, a) { LexTotal(a, b); }
    forall a, b, c | LexLe(a, b) && LexLe(b, c) ensures LexLe(a, c) { LexTransitive(a, b, c); }
  }

  lemma DistinctCounts(s: seq<string>)
    ensures Distinct(s) <==> forall x | x in s :: multiset(s)[x] == 1
  {
    if !Distinct(s) {
      var i, j :| 0 <= i < j < |s| && s[i] == s[j];
      assert s == s[..i] + [s[i]] + s[i + 1..j] + [s[j]] + s[j + 1..];
      assert multiset(s)[s[i]] >= 2;
      assert s[i] in s;
    } else {
      forall x | x in s ensures multiset(s)[x] == 1 {
        var i :| 0 <= i < |s| && s[i] == x;
        assert s == s[..i] + [x] + s[i + 1..];
        assert x !in s[..i] && x !in s[i + 1..];
      }
    }
  }

  lemma SortStrings(s: seq<string>)
    ensures SortedBy(LexLe, Sort(LexLe, s)) && Members(Sort(LexLe, s)) == Members(s)
    ensures Distinct(s) ==> Distinct(Sort(LexLe, s))
    ensures |Sort(LexLe, s)| == |s|
  {
    LexIsOrder();
    SortSorts(LexLe, s);
    SortPermutes(LexLe, s);
    SortKeepsMembers(LexLe, s);
    DistinctCounts(s);
    DistinctCounts(Sort(LexLe, s));
  }
}
