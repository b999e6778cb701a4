/** Sorting a vector of doubles (nrm_vector_sort with nrm_vector_sort_double_cmp), up to rounding:
    the sorted permutation, and that there is only one. */
module Sorting {

  ghost predicate Sorted(s: seq<real>) {
    forall i, j :: 0 <= i <= j < |s| ==> s[i] <= s[j]
  }

  function Insert(s: seq<real>, x: real): seq<real> {
    if s == [] then [x]
    else if x <= s[0] then [x] + s
    else [s[0]] + Insert(s[1..], x)
  }

  function Sort(s: seq<real>): seq<real> {
    if s == [] then [] else Insert(Sort(s[1..]), s[0])
  }

  lemma {:induction false} InsertPermutes(s: seq<real>, x: real)
    ensures multiset(Insert(s, x)) == multiset(s) + multiset{x} && |Insert(s, x)| == |s| + 1
  {
    if s != [] && !(x <= s[0]) {
      InsertPermutes(s[1..], x);
      assert s == [s[0]] + s[1..];
    }
  }

  lemma {:induction false} InsertSorts(s: seq<real>, x: real)
    requires Sorted(s)
    ensures Sorted(Insert(s, x))
  {
    if s != [] && !(x <= s[0]) {
      InsertSorts(s[1..], x);
      InsertPermutes(s[1..], x);
      PrependSorted(s[0], Insert(s[1..], x), s[1..], x);
    }
  }

  lemma PrependSorted(h: real, r: seq<real>, s: seq<real>, x: real)
    requires Sorted(r) && multiset(r) == multiset(s) + multiset{x} && h <= x
    requires forall i :: 0 <= i < |s| ==> h <= s[i]
    ensures Sorted([h] + r)
  {
    forall i | 0 <= i < |r|
      ensures h <= r[i]
    {
      assert r[i] in multiset(r);
      assert r[i] in s || r[i] == x;
    }
  }

  lemma {:induction false} SortSorts(s: seq<real>)
    ensures Sorted(Sort(s)) && multiset(Sort(s)) == multiset(s) && |Sort(s)| == |s|
  {
    if s != [] {
      SortSorts(s[1..]);
      InsertSorts(Sort(s[1..]), s[0]);
      InsertPermutes(Sort(s[1..]), s[0]);
      assert s == [s[0]] + s[1..];
    }
  }

  /** Two sorted sequences with the same elements are equal, so the result of a sort does not depend
      on the order of its input. */
  lemma {:induction false} SortedUnique(a: seq<real>, b: seq<real>)
    requires Sorted(a) && Sorted(b) && multiset(a) == multiset(b)
    ensures a == b
  {
    assert |a| == |multiset(a)| == |multiset(b)| == |b|;
    if a != [] {
      SameHead(a, b);
      SortedUnique(a[1..], b[1..]);
      assert a == [a[0]] + a[1..] && b == [b[0]] + b[1..];
    }
  }

  lemma SameHead(a: seq<real>, b: seq<real>)
    requires Sorted(a) && Sorted(b) && multiset(a) == multiset(b) && a != []
    ensures b != [] && a[0] == b[0] && multiset(a[1..]) == multiset(b[1..])
  {
    HeadIsLeast(a, b);
    HeadIsLeast(b, a);
    TailElements(a);
    TailElements(b);
  }

  lemma HeadIsLeast(a: seq<real>, b: seq<real>)
    requires Sorted(a) && multiset(a) == multiset(b) && a != []
    ensures b != [] && a[0] <= b[0]
  {
    assert |b| == |multiset(b)| == |multiset(a)| == |a|;
    assert b[0] in multiset(a);
    var i :| 0 <= i < |a| && a[i] == b[0];
    assert a[0] <= a[i];
  }

  lemma TailElements(a: seq<real>)
    requires a != []
    ensures multiset(a[1..]) == multiset(a) - multiset{a[0]}
  {
    assert a == [a[0]] + a[1..];
  }
}
