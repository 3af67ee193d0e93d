/** Sequences without repetition, reversed sequences, and the keys of a map in a sequence. */
module Sequences {

  ghost predicate Distinct<T>(s: seq<T>) {
    forall i, j | 0 <= i < j < |s| :: s[i] != s[j]
  }

  lemma {:induction false} DistinctCounts<T>(s: seq<T>)
    requires Distinct(s)
    ensures forall x :: multiset(s)[x] <= 1
  {
    if s != [] {
      var n := |s| - 1;
      DistinctCounts(s[..n]);
      assert s == s[..n] + [s[n]];
      assert s[n] !in s[..n];
    }
  }

  lemma CountsDistinct<T>(s: seq<T>)
    requires forall x :: multiset(s)[x] <= 1
    ensures Distinct(s)
  {
    forall i, j | 0 <= i < j < |s|
      ensures s[i] != s[j]
    {
      var x := s[j];
      assert s == s[..j] + ([x] + s[j+1..]);
      assert multiset(s)[x] == multiset(s[..j])[x] + multiset([x] + s[j+1..])[x];
      assert multiset([x] + s[j+1..]) == multiset{x} + multiset(s[j+1..]);
      assert x !in s[..j];
      assert s[i] in s[..j];
    }
  }

  function Reverse<T>(s: seq<T>): (r: seq<T>)
    ensures |r| == |s|
  {
    if s == [] then [] else [s[|s|-1]] + Reverse(s[..|s|-1])
  }

  lemma {:induction false} ReverseAt<T>(s: seq<T>, i: nat)
    requires i < |s|
    ensures Reverse(s)[i] == s[|s|-1-i]
  {
    if i > 0 {
      ReverseAt(s[..|s|-1], i - 1);
    }
  }

  lemma {:induction false} ReverseElements<T>(s: seq<T>)
    ensures multiset(Reverse(s)) == multiset(s)
  {
    if s != [] {
      ReverseElements(s[..|s|-1]);
      assert s == s[..|s|-1] + [s[|s|-1]];
    }
  }

  /** The sequence has each key of the map once and nothing else. */
  ghost predicate Enumerates<K(!new), V>(keys: seq<K>, m: map<K, V>) {
    Distinct(keys) && forall k :: k in keys <==> k in m
  }

  /** The keys of a dictionary in an arbitrary order. */
  method Enumerate<K(!new, ==), V>(m: map<K, V>) returns (keys: seq<K>)
    ensures Enumerates(keys, m)
  {
    keys := [];
    var left := m.Keys;
    while left != {}
      invariant left <= m.Keys && Distinct(keys)
      invariant forall k :: k in keys <==> k in m.Keys - left
      decreases left
    {
      var k :| k in left;
      assert k !in keys;
      keys, left := keys + [k], left - {k};
    }
  }
}
