/** Cardinality facts about sets of small numbers. */
module Counting {

  /** The numbers below `n`. */
  ghost function Below(n: nat): (b: set<nat>)
    ensures |b| == n && forall x: nat :: x in b <==> x < n
  {
    if n == 0 then {} else Below(n - 1) + {n - 1}
  }

  /** Distinct elements of a set are no more than its size. */
  lemma {:induction false} DistinctFits(s: seq<nat>, b: set<nat>)
    requires forall i: nat | i < |s| :: s[i] in b
    requires forall i: nat, j: nat | i < j < |s| :: s[i] != s[j]
    ensures |s| <= |b|
  {
    if s != [] {
      DistinctFits(s[..|s| - 1], b - {s[|s| - 1]});
    }
  }

  /** A sequence that mentions every element of a set is at least as long. */
  lemma {:induction false} CoverIsLong(b: set<nat>, s: seq<nat>)
    requires forall x | x in b :: x in s
    ensures |b| <= |s|
  {
    if s == [] {
      assert b == {};
    } else {
      var last := s[|s| - 1];
      assert s == s[..|s| - 1] + [last];
      CoverIsLong(b - {last}, s[..|s| - 1]);
    }
  }

  lemma SubsetIsSmaller(a: set<nat>, b: set<nat>)
    requires a <= b
    ensures |a| <= |b|
  {
    assert b == a + (b - a);
  }
}
