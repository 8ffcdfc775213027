/** A sort for any order, in place of the library's `qsort`: a sorted permutation. */
module Sorting {

  function Insert<T>(before: (T, T) -> bool, sorted: seq<T>, x: T): (r: seq<T>)
    ensures |r| == |sorted| + 1
  {
    if sorted == [] then [x]
    else if before(x, sorted[0]) then [x] + sorted
    else [sorted[0]] + Insert(before, sorted[1..], x)
  }

  function Sort<T>(before: (T, T) -> bool, s: seq<T>): (r: seq<T>)
    ensures |r| == |s|
  {
    if s == [] then [] else Insert(before, Sort(before, s[..|s| - 1]), s[|s| - 1])
  }

  ghost predicate Sorted<T>(before: (T, T) -> bool, s: seq<T>) {
    forall i, j :: 0 <= i < j < |s| ==> !before(s[j], s[i])
  }

  /** Not coming before is a total preorder. */
  ghost predicate IsOrder<T(!new)>(before: (T, T) -> bool) {
    && (forall a, b :: before(a, b) ==> !before(b, a))
    && (forall a, b, c :: !before(b, a) && !before(c, b) ==> !before(c, a))
  }

  lemma {:induction false} InsertSorted<T(!new)>(before: (T, T) -> bool, sorted: seq<T>, x: T)
    requires IsOrder(before) && Sorted(before, sorted)
    ensures Sorted(before, Insert(before, sorted, x))
    ensures multiset(Insert(before, sorted, x)) == multiset(sorted) + multiset{x}
  {
    if sorted == [] {
    } else if before(x, sorted[0]) {
    } else {
      var rest := sorted[1..];
      assert sorted == [sorted[0]] + rest;
      assert forall k :: 0 <= k < |rest| ==> rest[k] == sorted[k + 1];
      InsertSorted(before, rest, x);
      var r := Insert(before, rest, x);
      forall k | 0 <= k < |r|
        ensures !before(r[k], sorted[0])
      {
        assert r[k] in multiset(r);
        assert r[k] == x || r[k] in rest;
      }
    }
  }

  lemma {:induction false} SortIsSorted<T(!new)>(before: (T, T) -> bool, s: seq<T>)
    requires IsOrder(before)
    ensures Sorted(before, Sort(before, s)) && multiset(Sort(before, s)) == multiset(s)
  {
    if s != [] {
      var front := s[..|s| - 1];
      assert s == front + [s[|s| - 1]];
      SortIsSorted(before, front);
      InsertSorted(before, Sort(before, front), s[|s| - 1]);
    }
  }

  /** Sorting keeps the members. */
  lemma SortMembers<T(!new)>(before: (T, T) -> bool, s: seq<T>)
    requires IsOrder(before)
    ensures forall x :: x in s <==> x in Sort(before, s)
  {
    SortIsSorted(before, s);
    assert forall x :: x in s <==> x in multiset(s);
    assert forall x :: x in Sort(before, s) <==> x in multiset(Sort(before, s));
  }
}
