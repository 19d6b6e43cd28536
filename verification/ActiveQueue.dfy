/**
 The queue of active activations of `kernel/src/sched.c`: the first `end` places of `sq` hold
 them, and `aq` holds the place of each.  What QADD and QDEL keep, what the guard of
 `sched_delete` gets wrong, and the round robin of `sched_picknext`.
 */
module ActiveQueue {
  import opened Pigeonhole

  /** Places and members are inverse to each other on the active prefix. */
  ghost predicate QueueOk(aq: seq<nat>, sq: seq<nat>, end: nat) {
    && |aq| == |sq| && end <= |sq| && (forall a :: 0 <= a < |aq| ==> aq[a] < |sq|)
    && forall k :: 0 <= k < end ==> sq[k] < |aq| && aq[sq[k]] == k
  }

  predicate InPrefix(aq: seq<nat>, sq: seq<nat>, end: nat, a: nat)
    requires a < |aq|
  {
    aq[a] < end <= |sq| && sq[aq[a]] == a
  }

  /** An activation is in the prefix at most at one place, and `InPrefix` tells whether. */
  lemma OncePrefix(aq: seq<nat>, sq: seq<nat>, end: nat, a: nat)
    requires QueueOk(aq, sq, end) && a < |aq|
    ensures InPrefix(aq, sq, end, a) <==> exists k :: 0 <= k < end && sq[k] == a
    ensures forall j, k :: 0 <= j < end && 0 <= k < end && sq[j] == a && sq[k] == a ==> j == k
  {
  }

  /** Distinct numbers below `n` that leave one out are fewer than `n`. */
  lemma FewerThan(s: seq<nat>, n: nat, a: nat)
    requires a < n && a !in s && AllBelow(s, n) && AllDistinct(s)
    ensures |s| < n
  {
    DistinctFit(s + [a], n);
  }

  /** As long as one activation is not active there is room for it. */
  lemma RoomLeft(aq: seq<nat>, sq: seq<nat>, end: nat, a: nat)
    requires QueueOk(aq, sq, end) && a < |aq| && !InPrefix(aq, sq, end, a)
    ensures end < |sq|
  {
    var s := sq[..end];
    assert forall k :: 0 <= k < end ==> s[k] == sq[k];
    FewerThan(s, |aq|, a);
  }

  // ---------- QADD and QDEL ----------

  /** The queue after `QADD`. */
  function QAdd(aq: seq<nat>, sq: seq<nat>, end: nat, a: nat): (r: (seq<nat>, seq<nat>, nat))
    requires a < |aq| && end < |sq|
    ensures |r.0| == |aq| && |r.1| == |sq|
  {
    (aq[a := end], sq[end := a], end + 1)
  }

  lemma AddKeeps(aq: seq<nat>, sq: seq<nat>, end: nat, a: nat)
    requires QueueOk(aq, sq, end) && a < |aq| && !InPrefix(aq, sq, end, a) && end < |sq|
    ensures var (aq', sq', end') := QAdd(aq, sq, end, a);
      QueueOk(aq', sq', end') && forall b :: 0 <= b < |aq| ==>
        (InPrefix(aq', sq', end', b) <==> b == a || InPrefix(aq, sq, end, b))
  {
    var (aq', sq', end') := QAdd(aq, sq, end, a);
    forall b | 0 <= b < |aq|
      ensures InPrefix(aq', sq', end', b) <==> b == a || InPrefix(aq, sq, end, b)
    {
    }
  }

  /** The queue after `QDEL`: the last member takes the place that becomes free. */
  function QDel(aq: seq<nat>, sq: seq<nat>, end: nat, a: nat): (r: (seq<nat>, seq<nat>, nat))
    requires a < |aq| && aq[a] < |sq| && 0 < end <= |sq| && sq[end - 1] < |aq|
    ensures |r.0| == |aq| && |r.1| == |sq|
  {
    var replacement := sq[end - 1];
    (aq[replacement := aq[a]], sq[aq[a] := replacement], end - 1)
  }

  lemma DelKeeps(aq: seq<nat>, sq: seq<nat>, end: nat, a: nat)
    requires QueueOk(aq, sq, end) && a < |aq| && InPrefix(aq, sq, end, a)
    ensures sq[end - 1] < |aq|
    ensures var (aq', sq', end') := QDel(aq, sq, end, a);
      QueueOk(aq', sq', end') && forall b :: 0 <= b < |aq| ==>
        (InPrefix(aq', sq', end', b) <==> b != a && InPrefix(aq, sq, end, b))
  {
    var (aq', sq', end') := QDel(aq, sq, end, a);
    var r := sq[end - 1];
    forall k | 0 <= k < end' ensures sq'[k] < |aq'| && aq'[sq'[k]] == k {
      assert sq[k] != r;
    }
    forall b | 0 <= b < |aq|
      ensures InPrefix(aq', sq', end', b) <==> b != a && InPrefix(aq, sq, end, b)
    {
    }
  }

  /** In the round an activation joins at the end, and one that leaves is replaced by the last. */
  lemma RoundOrder(aq: seq<nat>, sq: seq<nat>, end: nat, a: nat)
    requires QueueOk(aq, sq, end) && a < |aq|
    ensures !InPrefix(aq, sq, end, a) && end < |sq| ==> QAdd(aq, sq, end, a).1[..end + 1] == sq[..end] + [a]
    ensures InPrefix(aq, sq, end, a) ==>
      && 0 < end && sq[end - 1] < |aq|
      && QDel(aq, sq, end, a).1[..end - 1] == sq[..end][aq[a] := sq[end - 1]][..end - 1]
  {
  }

  // ---------- the guard of sched_delete ----------

  /** `squeue_a[aqueue[act]] == act`. */
  predicate Guard(aq: seq<nat>, sq: seq<nat>, a: nat)
    requires a < |aq|
  {
    aq[a] < |sq| && sq[aq[a]] == a
  }

  /** The queue part of `sched_delete`. */
  function Delete(aq: seq<nat>, sq: seq<nat>, end: nat, a: nat): (r: (seq<nat>, seq<nat>, nat))
    requires a < |aq| && 0 < end <= |sq| && sq[end - 1] < |aq|
    ensures |r.0| == |aq| && |r.1| == |sq|
  {
    if Guard(aq, sq, a) then QDel(aq, sq, end, a) else (aq, sq, end)
  }

  /** The members after a deletion are those before without `a`. */
  ghost predicate RemovesOnly(aq: seq<nat>, sq: seq<nat>, end: nat, a: nat)
    requires a < |aq| && 0 < end <= |sq| && sq[end - 1] < |aq|
  {
    var (aq', sq', end') := Delete(aq, sq, end, a);
    QueueOk(aq', sq', end') && forall b :: 0 <= b < |aq| ==>
      (InPrefix(aq', sq', end', b) <==> b != a && InPrefix(aq, sq, end, b))
  }

  /** `sched_delete` removes just `a` if and only if `a` is active or its stale place does not hold it any more. */
  lemma DeleteIff(aq: seq<nat>, sq: seq<nat>, end: nat, a: nat)
    requires QueueOk(aq, sq, end) && a < |aq| && end > 0
    ensures sq[end - 1] < |aq|
    ensures RemovesOnly(aq, sq, end, a) <==> InPrefix(aq, sq, end, a) || !Guard(aq, sq, a)
  {
    if InPrefix(aq, sq, end, a) {
      DelKeeps(aq, sq, end, a);
    } else if Guard(aq, sq, a) {
      var r := sq[end - 1];
      assert InPrefix(aq, sq, end, r) && r != a;
      var (aq', sq', end') := Delete(aq, sq, end, a);
      assert !InPrefix(aq', sq', end', r);
    }
  }

  /** A run of the queue that meets the bad case: 1 and 2 become active, 2 stops, 2 is deleted; 1 is lost. */
  lemma DeleteLosesAnother()
    ensures var n := [0, 0, 0];
      var (aq1, sq1, e1) := QAdd(n, n, 0, 1);
      var (aq2, sq2, e2) := QAdd(aq1, sq1, e1, 2);
      var (aq3, sq3, e3) := QDel(aq2, sq2, e2, 2);
      var (aq4, sq4, e4) := Delete(aq3, sq3, e3, 2);
      && QueueOk(aq3, sq3, e3) && InPrefix(aq3, sq3, e3, 1) && !InPrefix(aq3, sq3, e3, 2)
      && !InPrefix(aq4, sq4, e4, 1)
  {
  }

  // ---------- sched_picknext ----------

  function NextIdx(idx: nat, end: nat): (i: nat)
    requires end > 0
    ensures i < end
  {
    (idx + 1) % end
  }

  /** The next `k` picks. */
  function Picks(sq: seq<nat>, idx: nat, end: nat, k: nat): (p: seq<nat>)
    requires 0 < end <= |sq|
    ensures |p| == k
    decreases k
  {
    if k == 0 then [] else [sq[NextIdx(idx, end)]] + Picks(sq, NextIdx(idx, end), end, k - 1)
  }

  lemma NextWraps(i: nat, end: nat)
    requires i < end
    ensures NextIdx(i, end) == if i + 1 < end then i + 1 else 0
  {
  }

  /** From place `i - 1` on the picks run through the queue in order, up to its end. */
  lemma {:induction false} PicksRun(sq: seq<nat>, i: nat, end: nat, k: nat)
    requires 0 < end <= |sq| && i < end && i + k < end
    ensures Picks(sq, i, end, k) == sq[i + 1..i + 1 + k]
    decreases k
  {
    if k > 0 {
      NextWraps(i, end);
      PicksRun(sq, i + 1, end, k - 1);
    }
  }

  lemma {:induction false} PicksSplit(sq: seq<nat>, i: nat, end: nat, j: nat, k: nat)
    requires 0 < end <= |sq| && i < end && i + j < end
    ensures Picks(sq, i, end, j + k) == Picks(sq, i, end, j) + Picks(sq, i + j, end, k)
    decreases j
  {
    if j > 0 {
      NextWraps(i, end);
      PicksSplit(sq, i + 1, end, j - 1, k);
    }
  }

  /** While the active set stays the same, as many picks as it has members pick each of them once. */
  lemma PicksEachOnce(sq: seq<nat>, idx: nat, end: nat)
    requires 0 < end <= |sq|
    ensures multiset(Picks(sq, idx, end, end)) == multiset(sq[..end])
  {
    var i := NextIdx(idx, end);
    var j := end - 1 - i;
    assert Picks(sq, idx, end, end) == [sq[i]] + Picks(sq, i, end, j + i);
    PicksSplit(sq, i, end, j, i);
    PicksRun(sq, i, end, j);
    assert Picks(sq, i, end, j) == sq[i + 1..end];
    if i > 0 {
      NextWraps(end - 1, end);
      assert Picks(sq, end - 1, end, i) == [sq[0]] + Picks(sq, 0, end, i - 1);
      PicksRun(sq, 0, end, i - 1);
      assert Picks(sq, end - 1, end, i) == sq[..i];
    } else {
      assert Picks(sq, end - 1, end, 0) == sq[..0];
    }
    assert Picks(sq, idx, end, end) == [sq[i]] + (sq[i + 1..end] + sq[..i]);
    Turned(sq, i, end);
  }

  /** A prefix turned round holds the same elements. */
  lemma Turned(sq: seq<nat>, i: nat, end: nat)
    requires i < end <= |sq|
    ensures multiset([sq[i]] + (sq[i + 1..end] + sq[..i])) == multiset(sq[..end])
  {
    assert sq[..end] == sq[..i] + [sq[i]] + sq[i + 1..end];
  }
}
