/** Quorums of n - f out of n members, f being a third of n - 1 rounded down. */
module Quorum {

  /** How many members may be faulty, with Go's truncating division. */
  function MaxFaulty(n: nat): (f: nat)
    ensures if n == 0 then f == 0 else 3 * f + 1 <= n <= 3 * f + 3
  {
    if n == 0 then 0 else (n - 1) / 3
  }

  function Threshold(n: nat): (t: nat)
    ensures t == n - MaxFaulty(n)
  {
    n - MaxFaulty(n)
  }

  /** Two quorums have more members in common than may be faulty. */
  lemma QuorumsIntersect<T>(all: set<T>, a: set<T>, b: set<T>)
    requires all != {} && a <= all && b <= all
    requires |a| >= Threshold(|all|) && |b| >= Threshold(|all|)
    ensures |a * b| >= |all| - 2 * MaxFaulty(|all|) > MaxFaulty(|all|)
  {
    SubsetSize(a + b, all);
    assert |a + b| + |a * b| == |a| + |b|;
  }

  lemma SubsetSize<T>(a: set<T>, b: set<T>)
    requires a <= b
    ensures |a| <= |b|
    ensures |a| == |b| ==> a == b
  {
    assert b == a + (b - a);
  }
}
