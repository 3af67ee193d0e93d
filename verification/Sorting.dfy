/** Python's sorted(): a stable sort by a total preorder. */
module Sorting {
  import opened Sequences

  ghost predicate TotalPreorder<T(!new)>(leq: (T, T) -> bool) {
    && (forall x, y :: leq(x, y) || leq(y, x))
    && (forall x, y, z :: leq(x, y) && leq(y, z) ==> leq(x, z))
  }

  ghost predicate Sorted<T>(s: seq<T>, leq: (T, T) -> bool) {
    forall i, j | 0 <= i < j < |s| :: leq(s[i], s[j])
  }

  /** Places x after every element not above it, so equal keys keep their order. */
  function Insert<T>(s: seq<T>, x: T, leq: (T, T) -> bool): seq<T> {
    if s == [] || leq(s[|s|-1], x) then s + [x]
    else Insert(s[..|s|-1], x, leq) + [s[|s|-1]]
  }

  function Sort<T>(s: seq<T>, leq: (T, T) -> bool): seq<T> {
    if s == [] then [] else Insert(Sort(s[..|s|-1], leq), s[|s|-1], leq)
  }

  lemma {:induction false} InsertElements<T>(s: seq<T>, x: T, leq: (T, T) -> bool)
    ensures multiset(Insert(s, x, leq)) == multiset(s) + multiset{x}
  {
    if !(s == [] || leq(s[|s|-1], x)) {
      InsertElements(s[..|s|-1], x, leq);
      assert s == s[..|s|-1] + [s[|s|-1]];
    }
  }

  lemma {:induction false} InsertSorted<T(!new)>(s: seq<T>, x: T, leq: (T, T) -> bool)
    requires TotalPreorder(leq) && Sorted(s, leq)
    ensures Sorted(Insert(s, x, leq), leq)
  {
    if !(s == [] || leq(s[|s|-1], x)) {
      var front, last := s[..|s|-1], s[|s|-1];
      InsertSorted(front, x, leq);
      InsertElements(front, x, leq);
      var r := Insert(front, x, leq);
      forall i | 0 <= i < |r|
        ensures leq(r[i], last)
      {
        assert r[i] in multiset(r);
        if r[i] != x {
          assert r[i] in front;
          var k :| 0 <= k < |front| && front[k] == r[i];
          assert s[k] == r[i];
        }
      }
    }
  }

  lemma {:induction false} SortElements<T>(s: seq<T>, leq: (T, T) -> bool)
    ensures multiset(Sort(s, leq)) == multiset(s)
    ensures |Sort(s, leq)| == |s|
    ensures forall x :: x in Sort(s, leq) <==> x in s
  {
    if s != [] {
      SortElements(s[..|s|-1], leq);
      InsertElements(Sort(s[..|s|-1], leq), s[|s|-1], leq);
      assert s == s[..|s|-1] + [s[|s|-1]];
    }
    assert |multiset(Sort(s, leq))| == |multiset(s)|;
    forall x
      ensures x in Sort(s, leq) <==> x in s
    {
      assert x in Sort(s, leq) <==> x in multiset(Sort(s, leq));
      assert x in s <==> x in multiset(s);
    }
  }

  lemma {:induction false} SortSorts<T(!new)>(s: seq<T>, leq: (T, T) -> bool)
    requires TotalPreorder(leq)
    ensures Sorted(Sort(s, leq), leq)
  {
    if s != [] {
      SortSorts(s[..|s|-1], leq);
      InsertSorted(Sort(s[..|s|-1], leq), s[|s|-1], leq);
    }
  }

  /** Sorting neither adds nor drops, so it cannot make two of one. */
  lemma SortKeepsDistinct<T(!new)>(s: seq<T>, leq: (T, T) -> bool)
    requires Distinct(s)
    ensures Distinct(Sort(s, leq))
  {
    SortElements(s, leq);
    DistinctCounts(s);
    CountsDistinct(Sort(s, leq));
  }

  lemma LastIsAbove<T(!new)>(a: seq<T>, x: T, leq: (T, T) -> bool)
    requires Sorted(a, leq) && x in a
    ensures x == a[|a|-1] || leq(x, a[|a|-1])
  {}

  /** There is one way to sort, when only equal elements are as large as each other. */
  lemma {:induction false} SortedIsUnique<T(!new)>(a: seq<T>, b: seq<T>, leq: (T, T) -> bool)
    requires forall x, y :: leq(x, y) && leq(y, x) ==> x == y
    requires Sorted(a, leq) && Sorted(b, leq) && multiset(a) == multiset(b)
    ensures a == b
  {
    SameLength(a, b);
    if a != [] {
      var n := |a| - 1;
      SameLast(a, b, leq);
      SameFronts(a, b);
      SortedIsUnique(a[..n], b[..n], leq);
      assert a == a[..n] + [a[n]] && b == b[..n] + [b[n]];
    }
  }

  lemma SameLength<T>(a: seq<T>, b: seq<T>)
    requires multiset(a) == multiset(b)
    ensures |a| == |b|
  {
    assert |multiset(a)| == |a| && |multiset(b)| == |b|;
  }

  lemma SameLast<T(!new)>(a: seq<T>, b: seq<T>, leq: (T, T) -> bool)
    requires forall x, y :: leq(x, y) && leq(y, x) ==> x == y
    requires Sorted(a, leq) && Sorted(b, leq) && multiset(a) == multiset(b) && a != [] && b != []
    ensures a[|a|-1] == b[|b|-1]
  {
    var x, y := a[|a|-1], b[|b|-1];
    assert x in multiset(b) && y in multiset(a);
    LastIsAbove(b, x, leq);
    LastIsAbove(a, y, leq);
  }

  lemma SameFronts<T>(a: seq<T>, b: seq<T>)
    requires a != [] && |a| == |b| && a[|a|-1] == b[|b|-1] && multiset(a) == multiset(b)
    ensures multiset(a[..|a|-1]) == multiset(b[..|b|-1])
  {
    WithoutLast(a);
    WithoutLast(b);
  }

  lemma WithoutLast<T>(s: seq<T>)
    requires s != []
    ensures multiset(s[..|s|-1]) == multiset(s) - multiset{s[|s|-1]}
  {
    assert s == s[..|s|-1] + [s[|s|-1]];
  }
}
