/** Python's stable `sorted`, as insertion at the last admissible place, and what it keeps. */
module Sorting {
  ghost predicate TotalPreorder<T(!new)>(le: (T, T) -> bool) {
    && (forall x, y :: le(x, y) || le(y, x))
    && (forall x, y, z :: le(x, y) && le(y, z) ==> le(x, z))
  }

  ghost predicate Antisymmetric<T(!new)>(le: (T, T) -> bool) {
    forall x, y :: le(x, y) && le(y, x) ==> x == y
  }

  /** x goes after every element it does not precede strictly. */
  function Insert<T>(s: seq<T>, x: T, le: (T, T) -> bool): (r: seq<T>)
    ensures |r| == |s| + 1
  {
    if s == [] then [x]
    else if le(s[|s| - 1], x) then s + [x]
    else Insert(s[..|s| - 1], x, le) + [s[|s| - 1]]
  }

  function Sort<T>(s: seq<T>, le: (T, T) -> bool): (r: seq<T>)
    ensures |r| == |s|
  {
    if s == [] then [] else Insert(Sort(s[..|s| - 1], le), s[|s| - 1], le)
  }

  ghost predicate Sorted<T>(s: seq<T>, le: (T, T) -> bool) {
    forall i, j :: 0 <= i < j < |s| ==> le(s[i], s[j])
  }

  lemma {:induction false} InsertPermutes<T>(s: seq<T>, x: T, le: (T, T) -> bool)
    ensures multiset(Insert(s, x, le)) == multiset(s) + multiset{x}
  {
    if s != [] && !le(s[|s| - 1], x) {
      InsertPermutes(s[..|s| - 1], x, le);
      assert s == s[..|s| - 1] + [s[|s| - 1]];
    }
  }

  lemma {:induction false} SortPermutes<T>(s: seq<T>, le: (T, T) -> bool)
    ensures multiset(Sort(s, le)) == multiset(s)
  {
    if s != [] {
      SortPermutes(s[..|s| - 1], le);
      InsertPermutes(Sort(s[..|s| - 1], le), s[|s| - 1], le);
      assert s == s[..|s| - 1] + [s[|s| - 1]];
    }
  }

  lemma SameMembers<T>(s: seq<T>, t: seq<T>, x: T)
    requires multiset(s) == multiset(t)
    ensures x in s <==> x in t
  {
    assert x in multiset(s) <==> x in multiset(t);
  }

  lemma SortMembers<T>(s: seq<T>, le: (T, T) -> bool, x: T)
    ensures x in Sort(s, le) <==> x in s
  {
    SortPermutes(s, le);
    SameMembers(Sort(s, le), s, x);
  }

  lemma {:induction false} InsertSorted<T(!new)>(s: seq<T>, x: T, le: (T, T) -> bool)
    requires TotalPreorder(le) && Sorted(s, le)
    ensures Sorted(Insert(s, x, le), le)
  {
    if s != [] {
      var k := |s| - 1;
      if le(s[k], x) {
        assert forall i :: 0 <= i < k ==> le(s[i], s[k]);
      } else {
        InsertSorted(s[..k], x, le);
        var r := Insert(s[..k], x, le);
        forall i | 0 <= i < |r|
          ensures le(r[i], s[k])
        {
          InsertPermutes(s[..k], x, le);
          assert r[i] in multiset(r);
          assert r[i] == x || r[i] in multiset(s[..k]);
        }
      }
    }
  }

  lemma {:induction false} SortSorted<T(!new)>(s: seq<T>, le: (T, T) -> bool)
    requires TotalPreorder(le)
    ensures Sorted(Sort(s, le), le)
  {
    if s != [] {
      SortSorted(s[..|s| - 1], le);
      InsertSorted(Sort(s[..|s| - 1], le), s[|s| - 1], le);
    }
  }

  lemma DropLast<T>(s: seq<T>)
    requires s != []
    ensures multiset(s[..|s| - 1]) == multiset(s) - multiset{s[|s| - 1]}
  {
    assert s == s[..|s| - 1] + [s[|s| - 1]];
  }

  lemma LastIsGreatest<T(!new)>(s: seq<T>, x: T, le: (T, T) -> bool)
    requires TotalPreorder(le) && Sorted(s, le) && x in s
    ensures le(x, s[|s| - 1])
  {
    var i :| 0 <= i < |s| && s[i] == x;
  }

  /** No two different elements of s tie. */
  ghost predicate NoTies<T>(s: seq<T>, le: (T, T) -> bool) {
    forall x, y :: x in s && y in s && le(x, y) && le(y, x) ==> x == y
  }

  lemma TiesAreEqual<T(!new)>(s: seq<T>, x: T, y: T, le: (T, T) -> bool)
    requires NoTies(s, le) && x in s && y in s
    ensures le(x, y) && le(y, x) ==> x == y
    ensures forall k :: 0 <= k <= |s| ==> NoTies(s[..k], le)
  {
  }

  /** A multiset without ties has one sorted arrangement. */
  lemma {:induction false} SortedUnique<T(!new)>(s: seq<T>, t: seq<T>, le: (T, T) -> bool)
    requires TotalPreorder(le) && NoTies(s, le)
    requires Sorted(s, le) && Sorted(t, le) && multiset(s) == multiset(t)
    ensures s == t
  {
    hide NoTies, TotalPreorder;
    assert |s| == |multiset(s)| == |multiset(t)| == |t|;
    if s != [] {
      var k := |s| - 1;
      SameMembers(s, t, s[k]);
      SameMembers(s, t, t[k]);
      TiesAreEqual(s, s[k], t[k], le);
      LastIsGreatest(s, t[k], le);
      LastIsGreatest(t, s[k], le);
      DropLast(s);
      DropLast(t);
      SortedUnique(s[..k], t[..k], le);
      assert s == s[..k] + [s[k]] && t == t[..k] + [t[k]];
    }
  }

  // ------------------------------------------------------------------- filtering

  function Filter<T>(s: seq<T>, keep: T -> bool): (r: seq<T>)
    ensures |r| <= |s|
  {
    if s == [] then []
    else
      var rest := Filter(s[..|s| - 1], keep);
      if keep(s[|s| - 1]) then rest + [s[|s| - 1]] else rest
  }

  lemma {:induction false} FilterMembers<T>(s: seq<T>, keep: T -> bool, x: T)
    ensures x in Filter(s, keep) <==> x in s && keep(x)
  {
    if s != [] {
      FilterMembers(s[..|s| - 1], keep, x);
      assert s == s[..|s| - 1] + [s[|s| - 1]];
    }
  }

  lemma FilterAppend<T>(s: seq<T>, x: T, keep: T -> bool)
    ensures Filter(s + [x], keep) == Filter(s, keep) + (if keep(x) then [x] else [])
  {
    assert (s + [x])[..|s|] == s;
  }

  lemma {:induction false} FilterConcat<T>(s: seq<T>, t: seq<T>, keep: T -> bool)
    ensures Filter(s + t, keep) == Filter(s, keep) + Filter(t, keep)
  {
    if t == [] {
      assert s + t == s;
    } else {
      var k := |t| - 1;
      FilterConcat(s, t[..k], keep);
      assert (s + t)[..|s + t| - 1] == s + t[..k];
    }
  }

  lemma InsertLast<T>(s: seq<T>, x: T, le: (T, T) -> bool)
    requires forall i :: 0 <= i < |s| ==> le(s[i], x)
    ensures Insert(s, x, le) == s + [x]
  {
  }

  lemma {:induction false} SortOfSorted<T(!new)>(s: seq<T>, le: (T, T) -> bool)
    requires TotalPreorder(le) && Sorted(s, le)
    ensures Sort(s, le) == s
  {
    if s != [] {
      var k := |s| - 1;
      SortOfSorted(s[..k], le);
      InsertLast(s[..k], s[k], le);
      assert s == s[..k] + [s[k]];
    }
  }

  lemma {:induction false} FilterInsert<T(!new)>(s: seq<T>, x: T, le: (T, T) -> bool, keep: T -> bool)
    requires TotalPreorder(le) && Sorted(s, le)
    ensures Filter(Insert(s, x, le), keep) == if keep(x) then Insert(Filter(s, keep), x, le) else Filter(s, keep)
  {
    if s == [] {
      FilterAppend([], x, keep);
      assert [] + [x] == [x];
    } else {
      var k := |s| - 1;
      if le(s[k], x) {
        FilterAppend(s, x, keep);
        var kept := Filter(s, keep);
        forall i | 0 <= i < |kept|
          ensures le(kept[i], x)
        {
          FilterMembers(s, keep, kept[i]);
          var j :| 0 <= j < |s| && s[j] == kept[i];
          assert j == k || le(s[j], s[k]);
        }
        InsertLast(kept, x, le);
      } else {
        FilterInsert(s[..k], x, le, keep);
        FilterAppend(Insert(s[..k], x, le), s[k], keep);
        if keep(s[k]) {
          var kept := Filter(s[..k], keep);
          assert (kept + [s[k]])[..|kept|] == kept;
        }
      }
    }
  }

  /** Stable sorting commutes with filtering. */
  lemma {:induction false} FilterSort<T(!new)>(s: seq<T>, le: (T, T) -> bool, keep: T -> bool)
    requires TotalPreorder(le)
    ensures Filter(Sort(s, le), keep) == Sort(Filter(s, keep), le)
  {
    if s != [] {
      var k := |s| - 1;
      FilterSort(s[..k], le, keep);
      SortSorted(s[..k], le);
      FilterInsert(Sort(s[..k], le), s[k], le, keep);
      if keep(s[k]) {
        var kept := Filter(s[..k], keep);
        assert (kept + [s[k]])[..|kept|] == kept;
      }
    }
  }

  // --------------------------------------------------------------------- mapping

  function Map<T, U>(s: seq<T>, f: T -> U): (r: seq<U>)
    ensures |r| == |s|
    ensures forall i :: 0 <= i < |s| ==> r[i] == f(s[i])
  {
    seq(|s|, i requires 0 <= i < |s| => f(s[i]))
  }

  lemma {:induction false} MapInsert<T(!new), U>(s: seq<T>, x: T, f: T -> U, le: (T, T) -> bool, le': (U, U) -> bool)
    requires forall a, b :: le'(f(a), f(b)) <==> le(a, b)
    ensures Map(Insert(s, x, le), f) == Insert(Map(s, f), f(x), le')
  {
    if s != [] && !le(s[|s| - 1], x) {
      var k := |s| - 1;
      MapInsert(s[..k], x, f, le, le');
      assert Map(s, f)[..k] == Map(s[..k], f);
    }
  }

  /** Sorting commutes with any map that keeps the order both ways. */
  lemma {:induction false} MapSort<T(!new), U>(s: seq<T>, f: T -> U, le: (T, T) -> bool, le': (U, U) -> bool)
    requires forall a, b :: le'(f(a), f(b)) <==> le(a, b)
    ensures Map(Sort(s, le), f) == Sort(Map(s, f), le')
  {
    if s != [] {
      var k := |s| - 1;
      MapSort(s[..k], f, le, le');
      MapInsert(Sort(s[..k], le), s[k], f, le, le');
      assert Map(s, f)[..k] == Map(s[..k], f);
    }
  }

  predicate RealLe(x: real, y: real) {
    x <= y
  }
}
