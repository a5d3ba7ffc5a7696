/**
 * `Array.prototype.sort` with a comparator: a stable sort. `le(x, y)` stands
 * for `compare(x, y) <= 0`.
 */
module Sorting {

  ghost predicate TotalPreorder<T(!new)>(le: (T, T) -> bool)
  {
    && (forall x, y :: le(x, y) || le(y, x))
    && (forall x, y, z :: le(x, y) && le(y, z) ==> le(x, z))
  }

  function Insert<T>(x: T, s: seq<T>, le: (T, T) -> bool): seq<T>
  {
    if s == [] then [x]
    else if le(x, s[0]) then [x] + s
    else [s[0]] + Insert(x, s[1..], le)
  }

  function Sort<T>(s: seq<T>, le: (T, T) -> bool): seq<T>
  {
    if s == [] then [] else Insert(s[0], Sort(s[1..], le), le)
  }

  function Filter<T>(s: seq<T>, keep: T -> bool): seq<T>
  {
    if s == [] then []
    else if keep(s[0]) then [s[0]] + Filter(s[1..], keep)
    else Filter(s[1..], keep)
  }

  ghost predicate Sorted<T(!new)>(s: seq<T>, le: (T, T) -> bool)
  {
    forall i, j :: 0 <= i < j < |s| ==> le(s[i], s[j])
  }

  lemma {:induction false} InsertPermutes<T>(x: T, s: seq<T>, le: (T, T) -> bool)
    ensures multiset(Insert(x, s, le)) == multiset(s) + multiset{x}
    ensures |Insert(x, s, le)| == |s| + 1
  {
    if s != [] {
      assert s == [s[0]] + s[1..];
      if !le(x, s[0]) {
        InsertPermutes(x, s[1..], le);
      }
    }
  }

  lemma {:induction false} SortPermutes<T>(s: seq<T>, le: (T, T) -> bool)
    ensures multiset(Sort(s, le)) == multiset(s)
    ensures |Sort(s, le)| == |s|
  {
    if s != [] {
      assert s == [s[0]] + s[1..];
      SortPermutes(s[1..], le);
      InsertPermutes(s[0], Sort(s[1..], le), le);
    }
  }

  lemma SortMembers<T>(s: seq<T>, le: (T, T) -> bool)
    ensures forall x :: x in Sort(s, le) <==> x in s
  {
    SortPermutes(s, le);
    forall x
      ensures x in Sort(s, le) <==> x in s
    {
      assert x in Sort(s, le) <==> x in multiset(Sort(s, le));
      assert x in s <==> x in multiset(s);
    }
  }

  lemma {:induction false} InsertMembers<T>(x: T, s: seq<T>, le: (T, T) -> bool)
    ensures forall y :: y in Insert(x, s, le) <==> y == x || y in s
  {
    if s != [] && !le(x, s[0]) {
      InsertMembers(x, s[1..], le);
    }
  }

  lemma SortedCons<T(!new)>(x: T, s: seq<T>, le: (T, T) -> bool)
    requires Sorted(s, le) && forall y :: y in s ==> le(x, y)
    ensures Sorted([x] + s, le)
  {
  }

  lemma SortedTail<T(!new)>(s: seq<T>, le: (T, T) -> bool)
    requires s != [] && Sorted(s, le)
    ensures Sorted(s[1..], le)
    ensures forall y :: y in s[1..] ==> le(s[0], y)
  {
  }

  lemma {:induction false} InsertSorts<T(!new)>(x: T, s: seq<T>, le: (T, T) -> bool)
    requires TotalPreorder(le) && Sorted(s, le)
    ensures Sorted(Insert(x, s, le), le)
  {
    if s != [] {
      SortedTail(s, le);
      if le(x, s[0]) {
        forall y | y in s
          ensures le(x, y)
        {
          assert y == s[0] || y in s[1..];
        }
        SortedCons(x, s, le);
      } else {
        InsertSorts(x, s[1..], le);
        InsertMembers(x, s[1..], le);
        SortedCons(s[0], Insert(x, s[1..], le), le);
      }
    }
  }

  lemma {:induction false} SortSorts<T(!new)>(s: seq<T>, le: (T, T) -> bool)
    requires TotalPreorder(le)
    ensures Sorted(Sort(s, le), le)
  {
    if s != [] {
      SortSorts(s[1..], le);
      InsertSorts(s[0], Sort(s[1..], le), le);
    }
  }

  lemma {:induction false} FilterMembers<T>(s: seq<T>, keep: T -> bool)
    ensures forall x :: x in Filter(s, keep) <==> x in s && keep(x)
  {
    if s != [] {
      FilterMembers(s[1..], keep);
    }
  }

  lemma {:induction false} FilterSorted<T(!new)>(s: seq<T>, keep: T -> bool, le: (T, T) -> bool)
    requires Sorted(s, le)
    ensures Sorted(Filter(s, keep), le)
  {
    if s != [] {
      SortedTail(s, le);
      FilterSorted(s[1..], keep, le);
      if keep(s[0]) {
        FilterMembers(s[1..], keep);
        SortedCons(s[0], Filter(s[1..], keep), le);
      }
    }
  }

  lemma {:induction false} FilterInsert<T(!new)>(x: T, s: seq<T>, keep: T -> bool, le: (T, T) -> bool)
    requires TotalPreorder(le) && Sorted(s, le)
    ensures Filter(Insert(x, s, le), keep) ==
            if keep(x) then Insert(x, Filter(s, keep), le) else Filter(s, keep)
  {
    if s == [] {
    } else if le(x, s[0]) {
      assert ([x] + s)[1..] == s;
      if keep(x) {
        InsertFirst(x, s, keep, le);
      }
    } else {
      var rest := Insert(x, s[1..], le);
      assert ([s[0]] + rest)[1..] == rest;
      SortedTail(s, le);
      FilterInsert(x, s[1..], keep, le);
    }
  }

  lemma InsertFirst<T(!new)>(x: T, s: seq<T>, keep: T -> bool, le: (T, T) -> bool)
    requires TotalPreorder(le) && Sorted(s, le) && s != [] && le(x, s[0])
    ensures Insert(x, Filter(s, keep), le) == [x] + Filter(s, keep)
  {
    FilterMembers(s, keep);
    var f := Filter(s, keep);
    if f != [] {
      assert f[0] in s;
      SortedTail(s, le);
      assert f[0] == s[0] || f[0] in s[1..];
    }
  }

  /** Stability: sorting a selection gives the same as selecting from the sorted list. */
  lemma {:induction false} SortFilter<T(!new)>(s: seq<T>, keep: T -> bool, le: (T, T) -> bool)
    requires TotalPreorder(le)
    ensures Sort(Filter(s, keep), le) == Filter(Sort(s, le), keep)
  {
    if s != [] {
      SortFilter(s[1..], keep, le);
      SortSorts(s[1..], le);
      FilterInsert(s[0], Sort(s[1..], le), keep, le);
    }
  }

  lemma {:induction false} InsertPairwise<T(!new)>(x: T, s: seq<T>, le: (T, T) -> bool, rel: (T, T) -> bool)
    requires Sorted(s, rel) && forall y :: y in s ==> rel(x, y) && rel(y, x)
    ensures Sorted(Insert(x, s, le), rel)
  {
    if s == [] {
    } else if le(x, s[0]) {
      SortedCons(x, s, rel);
    } else {
      SortedTail(s, rel);
      InsertPairwise(x, s[1..], le, rel);
      InsertMembers(x, s[1..], le);
      SortedCons(s[0], Insert(x, s[1..], le), rel);
    }
  }

  /** A symmetric relation that holds between any two elements survives sorting. */
  lemma {:induction false} SortPairwise<T(!new)>(s: seq<T>, le: (T, T) -> bool, rel: (T, T) -> bool)
    requires Sorted(s, rel) && forall x, y :: rel(x, y) ==> rel(y, x)
    ensures Sorted(Sort(s, le), rel)
  {
    if s != [] {
      SortedTail(s, rel);
      SortPairwise(s[1..], le, rel);
      SortMembers(s[1..], le);
      InsertPairwise(s[0], Sort(s[1..], le), le, rel);
    }
  }

  lemma {:induction false} SortOfEquals<T(!new)>(s: seq<T>, le: (T, T) -> bool)
    requires forall x, y :: x in s && y in s ==> le(x, y)
    ensures Sort(s, le) == s
  {
    if s != [] {
      SortOfEquals(s[1..], le);
      assert s == [s[0]] + s[1..];
    }
  }

  /** Elements that compare equal keep the order they had. */
  lemma TiesKeepOrder<T(!new)>(s: seq<T>, keep: T -> bool, le: (T, T) -> bool)
    requires TotalPreorder(le) && forall x, y :: keep(x) && keep(y) ==> le(x, y)
    ensures Filter(Sort(s, le), keep) == Filter(s, keep)
  {
    SortFilter(s, keep, le);
    FilterMembers(s, keep);
    SortOfEquals(Filter(s, keep), le);
  }
}
