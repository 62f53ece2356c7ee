/** Sequences without repetitions. */
module Distinctness {

  ghost predicate Distinct<T>(s: seq<T>) {
    forall i, j :: 0 <= i < j < |s| ==> s[i] != s[j]
  }

  function Upto(n: nat): (s: seq<nat>)
    ensures |s| == n
    ensures forall i :: 0 <= i < n ==> s[i] == i
  {
    seq(n, i => i)
  }

  /** A sequence without repetitions over 0..n has at most n elements, and exactly n only if it holds all of them. */
  lemma {:induction false} Pigeonhole(s: seq<nat>, n: nat)
    requires Distinct(s)
    requires forall j :: 0 <= j < |s| ==> s[j] < n
    ensures |s| <= n
    ensures |s| == n ==> forall x: nat :: x < n ==> x in s
  {
    var elems := set j | 0 <= j < |s| :: s[j];
    var all := set x | x in Upto(n);
    DistinctCard(s, elems);
    DistinctCard(Upto(n), all);
    forall x | x in elems ensures x in all {
      assert Upto(n)[x] == x;
    }
    SubsetCard(elems, all);
    forall x: nat | |s| == n && x < n ensures x in s {
      assert Upto(n)[x] == x;
      assert x in elems;
    }
  }

  lemma {:induction false} DistinctCard(s: seq<nat>, elems: set<nat>)
    requires Distinct(s)
    requires forall x :: x in elems <==> x in s
    ensures |elems| == |s|
  {
    if s == [] {
      assert elems == {};
    } else {
      var last := s[|s| - 1];
      var rest := s[..|s| - 1];
      assert s == rest + [last];
      assert last !in rest;
      DistinctCard(rest, elems - {last});
    }
  }

  lemma {:induction false} SubsetCard(a: set<nat>, b: set<nat>)
    requires a <= b
    ensures |a| <= |b|
    ensures |a| == |b| ==> a == b
  {
    var rest := b - a;
    assert b == a + rest && a !! rest;
    assert |b| == |a| + |rest|;
    if rest == {} {
      assert a == b;
    }
  }
}
