/**
 Distinct numbers below a bound: there are no more of them than the bound says.
 */
module Pigeonhole {
  ghost predicate AllDistinct(s: seq<nat>) {
    forall i, j :: 0 <= i < j < |s| ==> s[i] != s[j]
  }

  ghost predicate AllBelow(s: seq<nat>, n: nat) {
    forall i :: 0 <= i < |s| ==> s[i] < n
  }

  lemma {:induction false} DistinctFit(s: seq<nat>, n: nat)
    requires AllDistinct(s) && AllBelow(s, n)
    ensures |s| <= n
    decreases n
  {
    if s == [] {
    } else {
      assert s[0] < n;
      if i :| 0 <= i < |s| && s[i] == n - 1 {
        var t := s[..i] + s[i + 1..];
        assert forall j :: 0 <= j < |t| ==> t[j] == if j < i then s[j] else s[j + 1];
        DistinctFit(t, n - 1);
      } else {
        DistinctFit(s, n - 1);
      }
    }
  }
}
