/** Sums over the values of a map. */
module Sums {

  ghost function SumOf(m: map<nat, int>): int
    decreases |m|
  {
    if m == map[] then 0
    else
      var k :| k in m;
      Smaller(m, k);
      m[k] + SumOf(m - {k})
  }

  lemma Smaller(m: map<nat, int>, k: nat)
    requires k in m
    ensures |m - {k}| < |m|
  {
    assert (m - {k}).Keys == m.Keys - {k};
    assert |m.Keys| == |m| && |(m - {k}).Keys| == |m - {k}|;
  }

  /** Any key may be taken out first. */
  lemma {:induction false} SumWithout(m: map<nat, int>, k: nat)
    requires k in m
    ensures SumOf(m) == m[k] + SumOf(m - {k})
    decreases |m|
  {
    var j :| j in m && SumOf(m) == m[j] + SumOf(m - {j});
    if j == k {
    } else {
      Smaller(m, j);
      Smaller(m, k);
      SumWithout(m - {j}, k);
      SumWithout(m - {k}, j);
      assert m - {j} - {k} == m - {k} - {j};
    }
  }

  function At(m: map<nat, int>, k: nat): int {
    if k in m then m[k] else 0
  }

  lemma TakenOut(m: map<nat, int>, k: nat)
    ensures SumOf(m) == At(m, k) + SumOf(m - {k})
    ensures |m - {k}| <= |m| && (k in m ==> |m - {k}| < |m|)
    ensures forall j :: At(m - {k}, j) == if j == k then 0 else At(m, j)
  {
    if k in m {
      SumWithout(m, k);
      Smaller(m, k);
    } else {
      assert m - {k} == m;
    }
  }

  /** Sums are compared key by key; a missing key counts 0. */
  lemma {:induction false} SumAtMost(a: map<nat, int>, b: map<nat, int>)
    requires forall k :: At(a, k) <= At(b, k)
    ensures SumOf(a) <= SumOf(b)
    decreases |a| + |b|
  {
    if a == map[] && b == map[] {
    } else {
      hide SumOf, At;
      var k :| k in a || k in b;
      TakenOut(a, k);
      TakenOut(b, k);
      SumAtMost(a - {k}, b - {k});
    }
  }

  lemma SameSum(a: map<nat, int>, b: map<nat, int>)
    requires forall k :: At(a, k) == At(b, k)
    ensures SumOf(a) == SumOf(b)
  {
    SumAtMost(a, b);
    SumAtMost(b, a);
  }
}
