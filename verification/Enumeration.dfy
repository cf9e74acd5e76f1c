/** Sets as lists: Python iterates a set or a dict and then sorts, so any order of elements will do. */
module Enumeration {
  import opened Sorting

  ghost predicate Distinct<T>(s: seq<T>) {
    forall i, j :: 0 <= i < j < |s| ==> s[i] != s[j]
  }

  /** The elements of a set, each once, in an unspecified order. */
  method Elements<T(==)>(s: set<T>) returns (r: seq<T>)
    ensures Distinct(r) && (forall x :: x in r <==> x in s)
    ensures |r| == |s|
  {
    r := [];
    var rest := s;
    while rest != {}
      invariant rest <= s && Distinct(r) && |r| + |rest| == |s|
      invariant forall x :: x in r <==> x in s && x !in rest
      decreases |rest|
    {
      var x :| x in rest;
      assert x !in r;
      r, rest := r + [x], rest - {x};
    }
  }

  lemma {:induction false} DistinctCounts<T>(s: seq<T>, x: T)
    requires Distinct(s)
    ensures multiset(s)[x] == if x in s then 1 else 0
  {
    if s != [] {
      var k := |s| - 1;
      assert s == s[..k] + [s[k]];
      DistinctCounts(s[..k], x);
    }
  }

  /** Two duplicate-free lists with the same members, in the same total order, are one list. */
  lemma OneSortedList<T(!new)>(s: seq<T>, t: seq<T>, le: (T, T) -> bool)
    requires TotalPreorder(le) && Antisymmetric(le)
    requires Distinct(s) && Distinct(t) && Sorted(s, le) && Sorted(t, le)
    requires forall x :: x in s <==> x in t
    ensures s == t
  {
    forall x: T
      ensures multiset(s)[x] == multiset(t)[x]
    {
      DistinctCounts(s, x);
      DistinctCounts(t, x);
    }
    assert multiset(s) == multiset(t);
    SortedUnique(s, t, le);
  }

  /** Sorting keeps a list duplicate-free. */
  lemma {:induction false} CountsDistinct<T>(s: seq<T>)
    requires forall x :: multiset(s)[x] <= 1
    ensures Distinct(s)
  {
    if s != [] {
      var k := |s| - 1;
      assert s == s[..k] + [s[k]];
      forall x: T
        ensures multiset(s[..k])[x] <= 1
      {
        assert multiset(s)[x] == multiset(s[..k])[x] + multiset([s[k]])[x];
      }
      CountsDistinct(s[..k]);
      assert multiset(s)[s[k]] == multiset(s[..k])[s[k]] + 1;
      assert s[k] !in s[..k];
      forall i, j | 0 <= i < j < |s|
        ensures s[i] != s[j]
      {
        assert j == k ==> s[i] in s[..k];
        assert j < k ==> s[..k][i] != s[..k][j];
      }
    }
  }

  lemma SortDistinct<T(!new)>(s: seq<T>, le: (T, T) -> bool)
    requires Distinct(s)
    ensures Distinct(Sort(s, le))
  {
    SortPermutes(s, le);
    forall x: T
      ensures multiset(Sort(s, le))[x] <= 1
    {
      DistinctCounts(s, x);
    }
    CountsDistinct(Sort(s, le));
  }
}
