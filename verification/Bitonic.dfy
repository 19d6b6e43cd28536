/**
 Adaptive bitonic sorting (`olden_bisort/src/main.c`) on tree values: the descent that
 swaps subtrees, the merge and the sort as functions, and why they sort.

 A tree together with a spare value stands for the sequence of its values in order
 followed by the spare, so a perfect tree of depth `d` stands for 2^d values.
 */
module Bitonic {
  datatype Tree<N> = Nil | Bin(node: N, left: Tree<N>, value: int, right: Tree<N>)

  ghost predicate Perfect<N>(t: Tree<N>, d: nat) {
    match t
    case Nil => d == 0
    case Bin(_, l, _, r) => d > 0 && Perfect(l, d - 1) && Perfect(r, d - 1)
  }

  function InOrder<N>(t: Tree<N>): seq<int> {
    match t
    case Nil => []
    case Bin(_, l, v, r) => InOrder(l) + [v] + InOrder(r)
  }

  ghost function Nodes<N>(t: Tree<N>): set<N> {
    match t
    case Nil => {}
    case Bin(n, l, _, r) => {n} + Nodes(l) + Nodes(r)
  }

  /** No node occurs twice. */
  ghost predicate Simple<N>(t: Tree<N>) {
    t.Bin? ==>
      && Simple(t.left) && Simple(t.right)
      && t.node !in Nodes(t.left) && t.node !in Nodes(t.right) && Nodes(t.left) !! Nodes(t.right)
  }

  /** How often a value occurs in a tree. */
  ghost function ValueCount<N>(t: Tree<N>, x: int): nat {
    match t
    case Nil => 0
    case Bin(_, l, v, r) => (if v == x then 1 else 0) + ValueCount(l, x) + ValueCount(r, x)
  }

  ghost function Is(v: int, x: int): nat {
    if v == x then 1 else 0
  }

  /** The values that a tree and a spare value stand for. */
  function Values<N>(t: Tree<N>, spare: int): seq<int> {
    InOrder(t) + [spare]
  }

  // ---------- the algorithm ----------

  /** `(a > b) ^ dir`: is the pair out of order for the direction (false: ascending)? */
  predicate Exch(a: int, b: int, dir: bool) {
    (a > b) != dir
  }

  /** The while loop of `Bimerge`: one descent through both subtrees. */
  ghost function Descend<N>(l: Tree<N>, r: Tree<N>, right: bool, dir: bool, d: nat): (res: (Tree<N>, Tree<N>))
    requires Perfect(l, d) && Perfect(r, d)
    ensures Perfect(res.0, d) && Perfect(res.1, d)
    decreases d
  {
    if l.Nil? then (l, r)
    else if Exch(l.value, r.value, dir) then
      if right then
        var (a, b) := Descend(l.left, r.left, right, dir, d - 1);
        (Bin(l.node, a, r.value, r.right), Bin(r.node, b, l.value, l.right))
      else
        var (a, b) := Descend(l.right, r.right, right, dir, d - 1);
        (Bin(l.node, r.left, r.value, a), Bin(r.node, l.left, l.value, b))
    else
      if right then
        var (a, b) := Descend(l.right, r.right, right, dir, d - 1);
        (Bin(l.node, l.left, l.value, a), Bin(r.node, r.left, r.value, b))
      else
        var (a, b) := Descend(l.left, r.left, right, dir, d - 1);
        (Bin(l.node, a, l.value, l.right), Bin(r.node, b, r.value, r.right))
  }

  ghost function Merge<N>(t: Tree<N>, spare: int, dir: bool, d: nat): (res: (Tree<N>, int))
    requires t.Bin? && Perfect(t, d)
    ensures res.0.Bin? && res.0.node == t.node && Perfect(res.0, d)
    decreases d
  {
    var x := Exch(t.value, spare, dir);
    var v, s := if x then spare else t.value, if x then t.value else spare;
    var (l, r) := Descend(t.left, t.right, x, dir, d - 1);
    if l.Nil? then (Bin(t.node, l, v, r), s)
    else
      var (l', v') := Merge(l, v, dir, d - 1);
      var (r', s') := Merge(r, s, dir, d - 1);
      (Bin(t.node, l', v', r'), s')
  }

  ghost function Sort<N>(t: Tree<N>, spare: int, dir: bool, d: nat): (res: (Tree<N>, int))
    requires t.Bin? && Perfect(t, d)
    ensures res.0.Bin? && res.0.node == t.node && Perfect(res.0, d)
    decreases d
  {
    if t.left.Nil? then
      if Exch(t.value, spare, dir) then (t.(value := spare), t.value) else (t, spare)
    else
      assert Perfect(t.left, d - 1) && Perfect(t.right, d - 1);
      assert t.right.Bin?;
      var (l, v) := Sort(t.left, t.value, dir, d - 1);
      var (r, s) := Sort(t.right, spare, !dir, d - 1);
      Merge(Bin(t.node, l, v, r), s, dir, d)
  }

  // ---------- nodes and values are kept, whatever the values ----------

  lemma {:induction false} CountInOrder<N>(t: Tree<N>, x: int)
    ensures multiset(InOrder(t))[x] == ValueCount(t, x)
  {
    if t.Bin? {
      CountInOrder(t.left, x);
      CountInOrder(t.right, x);
    }
  }

  lemma {:induction false} DescendKeeps<N>(l: Tree<N>, r: Tree<N>, right: bool, dir: bool, d: nat, x: int)
    requires Perfect(l, d) && Perfect(r, d)
    ensures var (a, b) := Descend(l, r, right, dir, d);
      ValueCount(a, x) + ValueCount(b, x) == ValueCount(l, x) + ValueCount(r, x)
    decreases d
  {
    if l.Bin? {
      if right == Exch(l.value, r.value, dir) {
        DescendKeeps(l.left, r.left, right, dir, d - 1, x);
      } else {
        DescendKeeps(l.right, r.right, right, dir, d - 1, x);
      }
    }
  }

  lemma {:induction false} MergeKeeps<N>(t: Tree<N>, spare: int, dir: bool, d: nat, x: int)
    requires t.Bin? && Perfect(t, d)
    ensures var (u, s) := Merge(t, spare, dir, d);
      ValueCount(u, x) + Is(s, x) == ValueCount(t, x) + Is(spare, x)
    decreases d
  {
    var ex := Exch(t.value, spare, dir);
    var v, s := if ex then spare else t.value, if ex then t.value else spare;
    var (l, r) := Descend(t.left, t.right, ex, dir, d - 1);
    DescendKeeps(t.left, t.right, ex, dir, d - 1, x);
    if l.Bin? {
      MergeKeeps(l, v, dir, d - 1, x);
      MergeKeeps(r, s, dir, d - 1, x);
    }
  }

  /** Sorting keeps every value as often as it occurs, with ties too (and by the contract of `Sort` the shape). */
  lemma {:induction false} SortKeeps<N>(t: Tree<N>, spare: int, dir: bool, d: nat, x: int)
    requires t.Bin? && Perfect(t, d)
    ensures var (u, s) := Sort(t, spare, dir, d);
      ValueCount(u, x) + Is(s, x) == ValueCount(t, x) + Is(spare, x)
    decreases d
  {
    if t.left.Bin? {
      var (l, v) := Sort(t.left, t.value, dir, d - 1);
      var (r, s) := Sort(t.right, spare, !dir, d - 1);
      SortKeeps(t.left, t.value, dir, d - 1, x);
      SortKeeps(t.right, spare, !dir, d - 1, x);
      MergeKeeps(Bin(t.node, l, v, r), s, dir, d, x);
    }
  }

  /** Two separate nodes over separate parts, one pair of parts changed for `p` and `q` and the other exchanged or not. */
  lemma NodesApart<T>(x: T, y: T, a: set<T>, b: set<T>, c: set<T>, d: set<T>, p: set<T>, q: set<T>)
    requires {x} + a + b !! {y} + c + d && x !in a && x !in b && a !! b && y !in c && y !in d && c !! d
    requires p !! q && p + q == a + c
    ensures x !in p && x !in b && x !in d && p !! b && p !! d && y !in q && y !in b && y !in d && q !! b && q !! d
    ensures {x} + p + b !! {y} + q + d && {x} + p + d !! {y} + q + b
    ensures {x} + p + b + ({y} + q + d) == {x} + a + b + ({y} + c + d)
    ensures {x} + p + d + ({y} + q + b) == {x} + a + b + ({y} + c + d)
  {
    assert forall z :: z in p || z in q <==> z in a || z in c;
  }

  /** One step of the descent: the side it goes on with, and the side it exchanges or leaves. */
  lemma {:induction false} DescendStep<N>(l: Tree<N>, r: Tree<N>, right: bool, dir: bool, d: nat)
    requires Perfect(l, d) && Perfect(r, d) && d > 0
    ensures l.Bin? && r.Bin? && Perfect(l.left, d - 1) && Perfect(r.left, d - 1) && Perfect(l.right, d - 1) && Perfect(r.right, d - 1)
    ensures var x := Exch(l.value, r.value, dir);
      var (u, v) := if x then (r.value, l.value) else (l.value, r.value);
      Descend(l, r, right, dir, d) ==
        if right == x then
          var (a, b) := Descend(l.left, r.left, right, dir, d - 1);
          if x then (Bin(l.node, a, u, r.right), Bin(r.node, b, v, l.right)) else (Bin(l.node, a, u, l.right), Bin(r.node, b, v, r.right))
        else
          var (a, b) := Descend(l.right, r.right, right, dir, d - 1);
          if x then (Bin(l.node, r.left, u, a), Bin(r.node, l.left, v, b)) else (Bin(l.node, l.left, u, a), Bin(r.node, r.left, v, b))
  {
    hide Exch;
  }

  lemma {:induction false} DescendNodes<N>(l: Tree<N>, r: Tree<N>, right: bool, dir: bool, d: nat)
    requires Perfect(l, d) && Perfect(r, d) && Simple(l) && Simple(r) && Nodes(l) !! Nodes(r)
    ensures var (a, b) := Descend(l, r, right, dir, d);
      Simple(a) && Simple(b) && Nodes(a) !! Nodes(b) && Nodes(a) + Nodes(b) == Nodes(l) + Nodes(r)
    decreases d
  {
    if l.Bin? {
      DescendStep(l, r, right, dir, d);
      hide Descend, Perfect, Exch;
      if right == Exch(l.value, r.value, dir) {
        DescendNodes(l.left, r.left, right, dir, d - 1);
        var (a, b) := Descend(l.left, r.left, right, dir, d - 1);
        NodesApart(l.node, r.node, Nodes(l.left), Nodes(l.right), Nodes(r.left), Nodes(r.right), Nodes(a), Nodes(b));
      } else {
        DescendNodes(l.right, r.right, right, dir, d - 1);
        var (a, b) := Descend(l.right, r.right, right, dir, d - 1);
        NodesApart(l.node, r.node, Nodes(l.right), Nodes(l.left), Nodes(r.right), Nodes(r.left), Nodes(a), Nodes(b));
      }
    }
  }

  lemma {:induction false} MergeNodes<N>(t: Tree<N>, spare: int, dir: bool, d: nat)
    requires t.Bin? && Perfect(t, d) && Simple(t)
    ensures Simple(Merge(t, spare, dir, d).0) && Nodes(Merge(t, spare, dir, d).0) == Nodes(t)
    decreases d
  {
    var x := Exch(t.value, spare, dir);
    var v, s := if x then spare else t.value, if x then t.value else spare;
    var (l, r) := Descend(t.left, t.right, x, dir, d - 1);
    DescendNodes(t.left, t.right, x, dir, d - 1);
    SameKind(l, r, d - 1);
    assert Nodes(t) == {t.node} + (Nodes(l) + Nodes(r));
    hide Descend, Perfect, Exch;
    if l.Bin? {
      MergeNodes(l, v, dir, d - 1);
      MergeNodes(r, s, dir, d - 1);
    }
  }

  lemma SameKind<N>(l: Tree<N>, r: Tree<N>, d: nat)
    requires Perfect(l, d) && Perfect(r, d)
    ensures l.Bin? <==> r.Bin?
    ensures l.Bin? <==> d > 0
  {
  }

  /** Sorting uses the same nodes, each once and at the same root, with ties too. */
  lemma {:induction false} SortNodes<N>(t: Tree<N>, spare: int, dir: bool, d: nat)
    requires t.Bin? && Perfect(t, d) && Simple(t)
    ensures Simple(Sort(t, spare, dir, d).0) && Nodes(Sort(t, spare, dir, d).0) == Nodes(t)
    decreases d
  {
    if t.left.Bin? {
      var (l, v) := Sort(t.left, t.value, dir, d - 1);
      var (r, s) := Sort(t.right, spare, !dir, d - 1);
      SortNodes(t.left, t.value, dir, d - 1);
      SortNodes(t.right, spare, !dir, d - 1);
      MergeNodes(Bin(t.node, l, v, r), s, dir, d);
    }
  }

  /** The values before and after are the same, as multisets. */
  lemma SameValues<N>(t: Tree<N>, spare: int, u: Tree<N>, s: int)
    requires forall x :: ValueCount(u, x) + Is(s, x) == ValueCount(t, x) + Is(spare, x)
    ensures multiset(Values(u, s)) == multiset(Values(t, spare))
  {
    forall x ensures multiset(Values(u, s))[x] == multiset(Values(t, spare))[x] {
      CountValues(t, spare, x);
      CountValues(u, s, x);
    }
  }

  lemma {:induction false} SameLength<N>(l: Tree<N>, r: Tree<N>, d: nat)
    requires Perfect(l, d) && Perfect(r, d)
    ensures |InOrder(l)| == |InOrder(r)|
    decreases d
  {
    if d > 0 {
      SameLength(l.left, r.left, d - 1);
      SameLength(l.right, r.right, d - 1);
    }
  }

  // ---------- bitonic sequences ----------

  /** Values that go up, down and up, or down, up and down, around one threshold. */
  predicate Zigzag(a: int, b: int, c: int, d: int) {
    || (a < b && a < d && c < b && c < d)
    || (b < a && b < c && d < a && d < c)
  }

  ghost predicate NoZigzag(s: seq<int>, i: int, j: int, k: int, l: int) {
    0 <= i < j < k < l < |s| ==> !Zigzag(s[i], s[j], s[k], s[l])
  }

  /** Rising then falling, up to rotation: no four values zigzag around a threshold. */
  ghost predicate IsBitonic(s: seq<int>) {
    forall i, j, k, l :: NoZigzag(s, i, j, k, l)
  }

  ghost predicate Sorted(s: seq<int>, dir: bool) {
    forall i, j :: 0 <= i < j < |s| ==> if dir then s[i] >= s[j] else s[i] <= s[j]
  }

  ghost predicate Distinct(s: seq<int>) {
    forall x :: multiset(s)[x] <= 1
  }

  lemma DistinctOnce(s: seq<int>, x: int)
    requires Distinct(s)
    ensures multiset(s)[x] <= 1
  {
  }

  lemma DistinctAt(s: seq<int>, i: nat, j: nat)
    requires Distinct(s) && i < j < |s|
    ensures s[i] != s[j]
  {
    var a, b := s[..j], s[j..];
    assert s == a + b;
    assert a[i] in a && b[0] in b;
    assert multiset(a + b) == multiset(a) + multiset(b);
    assert a[i] in multiset(a) && b[0] in multiset(b);
    DistinctOnce(s, s[j]);
  }

  lemma DistinctParts(a: seq<int>, b: seq<int>)
    requires Distinct(a + b)
    ensures Distinct(a) && Distinct(b)
  {
    forall x ensures multiset(a)[x] <= 1 && multiset(b)[x] <= 1 {
      assert multiset(a + b)[x] == multiset(a)[x] + multiset(b)[x];
    }
  }

  /** The member of a pair that goes to the better (`low`) or the worse half. */
  function Pick(a: int, b: int, low: bool, dir: bool): int {
    if Exch(a, b, dir) == low then b else a
  }

  function Half(a: seq<int>, b: seq<int>, low: bool, dir: bool): (h: seq<int>)
    requires |a| == |b|
    ensures |h| == |a|
  {
    seq(|a|, i requires 0 <= i < |a| => Pick(a[i], b[i], low, dir))
  }

  /** The half cleaner: both halves of a bitonic sequence are bitonic, and no value of one is on the other's side. */
  lemma HalfCleaner(a: seq<int>, b: seq<int>, dir: bool)
    requires |a| == |b| && IsBitonic(a + b)
    ensures IsBitonic(Half(a, b, true, dir)) && IsBitonic(Half(a, b, false, dir))
    ensures forall i, j :: 0 <= i < |a| && 0 <= j < |a| ==>
      if dir then Half(a, b, true, dir)[i] >= Half(a, b, false, dir)[j] else Half(a, b, true, dir)[i] <= Half(a, b, false, dir)[j]
  {
    var n, s := |a|, a + b;
    forall i, j, k, l
      ensures NoZigzag(Half(a, b, true, dir), i, j, k, l) && NoZigzag(Half(a, b, false, dir), i, j, k, l)
    {
      if 0 <= i < j < k < l < n {
        assert NoZigzag(s, i, j, k, l) && NoZigzag(s, n + i, n + j, n + k, n + l);
        assert NoZigzag(s, i, l, n + k, n + l) && NoZigzag(s, k, l, n + i, n + j);
        assert NoZigzag(s, i, j, k, n + l) && NoZigzag(s, i, l, n + i, n + j);
        FourPairs(a[i], a[j], a[k], a[l], b[i], b[j], b[k], b[l], dir);
      }
    }
    forall i, j | 0 <= i < n && 0 <= j < n
      ensures if dir then Half(a, b, true, dir)[i] >= Half(a, b, false, dir)[j] else Half(a, b, true, dir)[i] <= Half(a, b, false, dir)[j]
    {
      assert NoZigzag(s, i, j, n + i, n + j) && NoZigzag(s, j, i, n + j, n + i);
    }
  }

  lemma FourPairs(a1: int, a2: int, a3: int, a4: int, b1: int, b2: int, b3: int, b4: int, dir: bool)
    requires !Zigzag(a1, a2, a3, a4) && !Zigzag(b1, b2, b3, b4)
    requires !Zigzag(a1, a4, b3, b4) && !Zigzag(a3, a4, b1, b2)
    requires !Zigzag(a1, a2, a3, b4) && !Zigzag(a1, a4, b1, b2)
    ensures forall low :: !Zigzag(Pick(a1, b1, low, dir), Pick(a2, b2, low, dir), Pick(a3, b3, low, dir), Pick(a4, b4, low, dir))
  {
  }

  /** With three pairs half a turn apart, the greater ones of a bitonic sequence lie side by side. */
  lemma ThreePairs(a1: int, a2: int, a3: int, b1: int, b2: int, b3: int)
    requires a1 != b1 && a2 != b2 && a3 != b3
    requires !Zigzag(a1, a2, a3, b1) && !Zigzag(a1, a2, a3, b2) && !Zigzag(a1, a2, a3, b3)
    requires !Zigzag(a1, a2, b1, b2) && !Zigzag(a1, a2, b1, b3) && !Zigzag(a1, a2, b2, b3)
    requires !Zigzag(a1, a3, b1, b2) && !Zigzag(a1, a3, b1, b3) && !Zigzag(a1, a3, b2, b3)
    requires !Zigzag(a2, a3, b1, b2) && !Zigzag(a2, a3, b1, b3) && !Zigzag(a2, a3, b2, b3)
    requires !Zigzag(a1, b1, b2, b3) && !Zigzag(a2, b1, b2, b3) && !Zigzag(a3, b1, b2, b3)
    ensures !(a1 > b1 && a2 < b2 && a3 > b3) && !(a1 < b1 && a2 > b2 && a3 < b3)
  {
  }

  /** The exchanges that the half cleaner makes are a final stretch if the last pair is one of them, else an initial one. */
  ghost predicate OneSided(a: seq<int>, b: seq<int>, right: bool, dir: bool)
    requires |a| == |b|
  {
    forall i, j :: 0 <= i < j < |a| ==>
      if right then Exch(a[i], b[i], dir) ==> Exch(a[j], b[j], dir)
      else Exch(a[j], b[j], dir) ==> Exch(a[i], b[i], dir)
  }

  lemma ExchangesOneSided(a: seq<int>, b: seq<int>, dir: bool)
    requires |a| == |b| > 0 && IsBitonic(a + b) && Distinct(a + b)
    ensures OneSided(a, b, Exch(a[|a| - 1], b[|a| - 1], dir), dir)
  {
    var n, s := |a|, a + b;
    var m := n - 1;
    forall i, j | 0 <= i < j < n
      ensures if Exch(a[m], b[m], dir) then Exch(a[i], b[i], dir) ==> Exch(a[j], b[j], dir)
        else Exch(a[j], b[j], dir) ==> Exch(a[i], b[i], dir)
    {
      DistinctAt(s, i, n + i);
      DistinctAt(s, j, n + j);
      DistinctAt(s, m, n + m);
      if j < m {
        assert NoZigzag(s, i, j, m, n + i) && NoZigzag(s, i, j, m, n + j) && NoZigzag(s, i, j, m, n + m);
        assert NoZigzag(s, i, j, n + i, n + j) && NoZigzag(s, i, j, n + i, n + m) && NoZigzag(s, i, j, n + j, n + m);
        assert NoZigzag(s, i, m, n + i, n + j) && NoZigzag(s, i, m, n + i, n + m) && NoZigzag(s, i, m, n + j, n + m);
        assert NoZigzag(s, j, m, n + i, n + j) && NoZigzag(s, j, m, n + i, n + m) && NoZigzag(s, j, m, n + j, n + m);
        assert NoZigzag(s, i, n + i, n + j, n + m) && NoZigzag(s, j, n + i, n + j, n + m) && NoZigzag(s, m, n + i, n + j, n + m);
        ThreePairs(a[i], a[j], a[m], b[i], b[j], b[m]);
      }
    }
  }

  // ---------- the descent does what the half cleaner does ----------

  lemma {:induction false} DescendCleans<N>(l: Tree<N>, r: Tree<N>, right: bool, dir: bool, d: nat)
    requires Perfect(l, d) && Perfect(r, d)
    requires (SameLength(l, r, d); OneSided(InOrder(l), InOrder(r), right, dir))
    ensures var (a, b) := Descend(l, r, right, dir, d);
      && |InOrder(l)| == |InOrder(r)|
      && InOrder(a) == Half(InOrder(l), InOrder(r), true, dir)
      && InOrder(b) == Half(InOrder(l), InOrder(r), false, dir)
    decreases d
  {
    SameLength(l, r, d);
    if d > 0 {
      SameLength(l.left, r.left, d - 1);
      SameLength(l.right, r.right, d - 1);
      var a, b, n := InOrder(l), InOrder(r), |InOrder(l.left)|;
      Cut(InOrder(l.left), l.value, InOrder(l.right));
      Cut(InOrder(r.left), r.value, InOrder(r.right));
      hide OneSided, Half, Exch, InOrder;
      if right == Exch(l.value, r.value, dir) {
        CleanLeft(a, b, n, right, dir);
        DescendCleans(l.left, r.left, right, dir, d - 1);
      } else {
        CleanRight(a, b, n, right, dir);
        DescendCleans(l.right, r.right, right, dir, d - 1);
      }
      DescendInOrder(l, r, right, dir, d);
    }
  }

  lemma Cut(a1: seq<int>, u: int, a2: seq<int>)
    ensures var a, n := a1 + [u] + a2, |a1|;
      a[n] == u && a[..n] == a1 && a[n + 1..] == a2
  {
  }

  /** One step of the descent, on the values. */
  lemma DescendInOrder<N>(l: Tree<N>, r: Tree<N>, right: bool, dir: bool, d: nat)
    requires Perfect(l, d) && Perfect(r, d) && d > 0
    ensures var (a, b) := Descend(l, r, right, dir, d);
      var u, v := l.value, r.value;
      if right == Exch(u, v, dir) then
        var (a', b') := Descend(l.left, r.left, right, dir, d - 1);
        && InOrder(a) == InOrder(a') + [if right then v else u] + (if right then InOrder(r.right) else InOrder(l.right))
        && InOrder(b) == InOrder(b') + [if right then u else v] + (if right then InOrder(l.right) else InOrder(r.right))
      else
        var (a', b') := Descend(l.right, r.right, right, dir, d - 1);
        && InOrder(a) == (if right then InOrder(l.left) else InOrder(r.left)) + [if right then u else v] + InOrder(a')
        && InOrder(b) == (if right then InOrder(r.left) else InOrder(l.left)) + [if right then v else u] + InOrder(b')
  {
    hide Exch;
  }

  /** The pairs behind a pair that goes with the side are like it, so cleaning goes on in front. */
  lemma CleanLeft(a: seq<int>, b: seq<int>, n: nat, right: bool, dir: bool)
    requires |a| == |b| && n < |a| && OneSided(a, b, right, dir) && right == Exch(a[n], b[n], dir)
    ensures OneSided(a[..n], b[..n], right, dir)
    ensures Half(a, b, true, dir) ==
      Half(a[..n], b[..n], true, dir) + [if right then b[n] else a[n]] + (if right then b[n + 1..] else a[n + 1..])
    ensures Half(a, b, false, dir) ==
      Half(a[..n], b[..n], false, dir) + [if right then a[n] else b[n]] + (if right then a[n + 1..] else b[n + 1..])
  {
    OneSidedPart(a, b, 0, n, right, dir);
    assert a[0..n] == a[..n] && b[0..n] == b[..n];
    TailAlike(a, b, n, right, dir);
    hide OneSided;
    AllOrNone(a[n..], b[n..], right, dir);
    HalfJoins(a, b, n, true, dir);
    HalfJoins(a, b, n, false, dir);
    hide Half, Exch;
    assert a[n..] == [a[n]] + a[n + 1..] && b[n..] == [b[n]] + b[n + 1..];
    Reassociated(Half(a[..n], b[..n], true, dir), if right then b[n] else a[n], if right then b[n + 1..] else a[n + 1..]);
    Reassociated(Half(a[..n], b[..n], false, dir), if right then a[n] else b[n], if right then a[n + 1..] else b[n + 1..]);
  }

  /** The pairs in front of a pair that does not go with the side are like it, so cleaning goes on behind. */
  lemma CleanRight(a: seq<int>, b: seq<int>, n: nat, right: bool, dir: bool)
    requires |a| == |b| && n < |a| && OneSided(a, b, right, dir) && right != Exch(a[n], b[n], dir)
    ensures OneSided(a[n + 1..], b[n + 1..], right, dir)
    ensures Half(a, b, true, dir) ==
      (if right then a[..n] else b[..n]) + [if right then a[n] else b[n]] + Half(a[n + 1..], b[n + 1..], true, dir)
    ensures Half(a, b, false, dir) ==
      (if right then b[..n] else a[..n]) + [if right then b[n] else a[n]] + Half(a[n + 1..], b[n + 1..], false, dir)
  {
    OneSidedPart(a, b, n + 1, |a|, right, dir);
    assert a[n + 1..|a|] == a[n + 1..] && b[n + 1..|b|] == b[n + 1..];
    HeadAlike(a, b, n, right, dir);
    hide OneSided;
    AllOrNone(a[..n + 1], b[..n + 1], !right, dir);
    HalfJoins(a, b, n + 1, true, dir);
    HalfJoins(a, b, n + 1, false, dir);
    hide Half, Exch;
    assert a[..n + 1] == a[..n] + [a[n]] && b[..n + 1] == b[..n] + [b[n]];
  }

  lemma Reassociated(x: seq<int>, y: int, z: seq<int>)
    ensures x + ([y] + z) == x + [y] + z
  {
  }

  lemma TailAlike(a: seq<int>, b: seq<int>, n: nat, right: bool, dir: bool)
    requires |a| == |b| && n < |a| && OneSided(a, b, right, dir) && right == Exch(a[n], b[n], dir)
    ensures forall i :: n <= i < |a| ==> Exch(a[i], b[i], dir) == right
  {
    hide Exch;
  }

  lemma HeadAlike(a: seq<int>, b: seq<int>, n: nat, right: bool, dir: bool)
    requires |a| == |b| && n < |a| && OneSided(a, b, right, dir) && right != Exch(a[n], b[n], dir)
    ensures forall i :: 0 <= i <= n ==> Exch(a[i], b[i], dir) == !right
  {
    hide Exch;
  }

  lemma HalfJoins(a: seq<int>, b: seq<int>, n: nat, low: bool, dir: bool)
    requires |a| == |b| && n <= |a|
    ensures Half(a, b, low, dir) == Half(a[..n], b[..n], low, dir) + Half(a[n..], b[n..], low, dir)
  {
  }

  lemma OneSidedPart(a: seq<int>, b: seq<int>, x: nat, y: nat, right: bool, dir: bool)
    requires |a| == |b| && OneSided(a, b, right, dir) && x <= y <= |a|
    ensures OneSided(a[x..y], b[x..y], right, dir)
  {
  }

  /** A stretch where every pair or no pair is exchanged. */
  lemma AllOrNone(a: seq<int>, b: seq<int>, all: bool, dir: bool)
    requires |a| == |b| && forall i :: 0 <= i < |a| ==> Exch(a[i], b[i], dir) == all
    ensures if all then Half(a, b, true, dir) == b && Half(a, b, false, dir) == a else Half(a, b, true, dir) == a && Half(a, b, false, dir) == b
  {
  }

  // ---------- merging and sorting ----------

  lemma ValuesSplit<N>(t: Tree<N>, spare: int)
    requires t.Bin?
    ensures Values(t, spare) == Values(t.left, t.value) + Values(t.right, spare)
  {
  }

  /** The pairs of the two halves that are out of order form one stretch, on the side of the last pair if it is one. */
  ghost predicate RootOneSided<N>(t: Tree<N>, spare: int, dir: bool, d: nat)
    requires t.Bin? && Perfect(t, d)
  {
    SameLength(t.left, t.right, d - 1);
    OneSided(Values(t.left, t.value), Values(t.right, spare), Exch(t.value, spare, dir), dir)
  }

  /** What the exchange at the root and the descent leave: the two cleaned halves. */
  lemma MergeCleans<N>(t: Tree<N>, spare: int, dir: bool, d: nat)
    requires t.Bin? && Perfect(t, d) && RootOneSided(t, spare, dir, d)
    ensures var x := Exch(t.value, spare, dir);
      var (l, r) := Descend(t.left, t.right, x, dir, d - 1);
      var a, b := Values(t.left, t.value), Values(t.right, spare);
      && |a| == |b|
      && Values(l, Pick(t.value, spare, true, dir)) == Half(a, b, true, dir)
      && Values(r, Pick(t.value, spare, false, dir)) == Half(a, b, false, dir)
  {
    SameLength(t.left, t.right, d - 1);
    var x := Exch(t.value, spare, dir);
    LastPair(InOrder(t.left), InOrder(t.right), t.value, spare, x, dir);
    DescendCleans(t.left, t.right, x, dir, d - 1);
  }

  lemma LastPair(a: seq<int>, b: seq<int>, v: int, w: int, right: bool, dir: bool)
    requires |a| == |b| && OneSided(a + [v], b + [w], right, dir)
    ensures OneSided(a, b, right, dir)
    ensures forall low :: Half(a + [v], b + [w], low, dir) == Half(a, b, low, dir) + [Pick(v, w, low, dir)]
  {
    assert forall i :: 0 <= i < |a| ==> (a + [v])[i] == a[i] && (b + [w])[i] == b[i];
  }

  lemma CleanedKeeps<N>(t: Tree<N>, spare: int, dir: bool, d: nat, y: int)
    requires t.Bin? && Perfect(t, d)
    ensures var (l, r) := Descend(t.left, t.right, Exch(t.value, spare, dir), dir, d - 1);
      multiset(Values(l, Pick(t.value, spare, true, dir)))[y] + multiset(Values(r, Pick(t.value, spare, false, dir)))[y]
      == multiset(Values(t, spare))[y]
  {
    hide Values, Descend;
    var x := Exch(t.value, spare, dir);
    var v, s := Pick(t.value, spare, true, dir), Pick(t.value, spare, false, dir);
    var (l, r) := Descend(t.left, t.right, x, dir, d - 1);
    DescendKeeps(t.left, t.right, x, dir, d - 1, y);
    CountValues(t, spare, y);
    CountValues(l, v, y);
    CountValues(r, s, y);
  }

  lemma CleanedDistinct<N>(t: Tree<N>, spare: int, dir: bool, d: nat)
    requires t.Bin? && Perfect(t, d) && Distinct(Values(t, spare))
    ensures var (l, r) := Descend(t.left, t.right, Exch(t.value, spare, dir), dir, d - 1);
      && Distinct(Values(l, Pick(t.value, spare, true, dir)))
      && Distinct(Values(r, Pick(t.value, spare, false, dir)))
  {
    hide Values, Descend, Exch, Pick;
    var v, s := Pick(t.value, spare, true, dir), Pick(t.value, spare, false, dir);
    var (l, r) := Descend(t.left, t.right, Exch(t.value, spare, dir), dir, d - 1);
    forall y ensures multiset(Values(l, v))[y] <= 1 && multiset(Values(r, s))[y] <= 1 {
      CleanedKeeps(t, spare, dir, d, y);
    }
  }

  lemma CountValues<N>(t: Tree<N>, spare: int, x: int)
    ensures multiset(Values(t, spare))[x] == ValueCount(t, x) + Is(spare, x)
  {
    CountInOrder(t, x);
  }

  lemma SortedConcat(a: seq<int>, b: seq<int>, a': seq<int>, b': seq<int>, dir: bool)
    requires Sorted(a', dir) && Sorted(b', dir)
    requires multiset(a') == multiset(a) && multiset(b') == multiset(b)
    requires forall i, j :: 0 <= i < |a| && 0 <= j < |b| ==> if dir then a[i] >= b[j] else a[i] <= b[j]
    ensures Sorted(a' + b', dir)
  {
    forall i, j | 0 <= i < |a'| && 0 <= j < |b'|
      ensures if dir then a'[i] >= b'[j] else a'[i] <= b'[j]
    {
      assert a'[i] in multiset(a') && b'[j] in multiset(b');
      assert a'[i] in a && b'[j] in b;
    }
  }

  /** On distinct values, or where a half has at most two values, the exchanges are one-sided. */
  lemma MergeOneSided<N>(t: Tree<N>, spare: int, dir: bool, d: nat)
    requires t.Bin? && Perfect(t, d) && IsBitonic(Values(t, spare)) && (d <= 2 || Distinct(Values(t, spare)))
    ensures RootOneSided(t, spare, dir, d)
  {
    var a, b := Values(t.left, t.value), Values(t.right, spare);
    ValuesSplit(t, spare);
    SameLength(t.left, t.right, d - 1);
    if d <= 2 {
      AtMostOne(t.left, d - 1);
    } else {
      ExchangesOneSided(a, b, dir);
    }
  }

  lemma AtMostOne<N>(t: Tree<N>, d: nat)
    requires Perfect(t, d) && d <= 1
    ensures |InOrder(t)| <= 1
  {
    if t.Bin? {
      assert InOrder(t.left) == [] && InOrder(t.right) == [];
    }
  }

  /** `Bimerge` sorts a bitonic sequence of distinct values, and any bitonic sequence of at most four. */
  lemma {:induction false} MergeSorts<N>(t: Tree<N>, spare: int, dir: bool, d: nat)
    requires t.Bin? && Perfect(t, d) && IsBitonic(Values(t, spare)) && (d <= 2 || Distinct(Values(t, spare)))
    ensures Sorted(Values(Merge(t, spare, dir, d).0, Merge(t, spare, dir, d).1), dir)
    decreases d, 1
  {
    MergeOneSided(t, spare, dir, d);
    MergeStep(t, spare, dir, d);
  }

  lemma {:induction false} MergeStep<N>(t: Tree<N>, spare: int, dir: bool, d: nat)
    requires t.Bin? && Perfect(t, d) && IsBitonic(Values(t, spare))
    requires RootOneSided(t, spare, dir, d) && (d <= 3 || Distinct(Values(t, spare)))
    ensures Sorted(Values(Merge(t, spare, dir, d).0, Merge(t, spare, dir, d).1), dir)
    decreases d, 0
  {
    hide IsBitonic, Distinct, Sorted, InOrder, Half, RootOneSided;
    var v, s := Pick(t.value, spare, true, dir), Pick(t.value, spare, false, dir);
    var (l, r) := Descend(t.left, t.right, Exch(t.value, spare, dir), dir, d - 1);
    if l.Bin? {
      assert r.Bin?;
      var a, b := Values(t.left, t.value), Values(t.right, spare);
      MergeCleans(t, spare, dir, d);
      if d > 3 { CleanedDistinct(t, spare, dir, d); }
      ValuesSplit(t, spare);
      HalfCleaner(a, b, dir);
      MergeSorts(l, v, dir, d - 1);
      MergeSorts(r, s, dir, d - 1);
      var (l', v') := Merge(l, v, dir, d - 1);
      var (r', s') := Merge(r, s, dir, d - 1);
      MergeSameValues(l, v, dir, d - 1);
      MergeSameValues(r, s, dir, d - 1);
      SortedConcat(Values(l, v), Values(r, s), Values(l', v'), Values(r', s'), dir);
      ValuesSplit(Bin(t.node, l', v', r'), s');
      assert Merge(t, spare, dir, d) == (Bin(t.node, l', v', r'), s');
    } else {
      TwoSorted(t.node, t.value, spare, dir);
    }
  }

  lemma TwoSorted<N>(n: N, a: int, b: int, dir: bool)
    ensures Sorted(Values(Bin(n, Nil, Pick(a, b, true, dir), Nil), Pick(a, b, false, dir)), dir)
  {
    var t := Bin(n, Nil, Pick(a, b, true, dir), Nil);
    assert InOrder(t.left) == [] && InOrder(t.right) == [];
    assert Values(t, Pick(a, b, false, dir)) == [Pick(a, b, true, dir), Pick(a, b, false, dir)];
  }

  lemma MergeSameValues<N>(t: Tree<N>, spare: int, dir: bool, d: nat)
    requires t.Bin? && Perfect(t, d)
    ensures var (u, s) := Merge(t, spare, dir, d); multiset(Values(u, s)) == multiset(Values(t, spare))
  {
    var (u, s) := Merge(t, spare, dir, d);
    forall x ensures ValueCount(u, x) + Is(s, x) == ValueCount(t, x) + Is(spare, x) {
      MergeKeeps(t, spare, dir, d, x);
    }
    SameValues(t, spare, u, s);
  }

  /** Sorting permutes the values, with ties too. */
  lemma SortSameValues<N>(t: Tree<N>, spare: int, dir: bool, d: nat)
    requires t.Bin? && Perfect(t, d)
    ensures var (u, s) := Sort(t, spare, dir, d); multiset(Values(u, s)) == multiset(Values(t, spare))
  {
    var (u, s) := Sort(t, spare, dir, d);
    forall x ensures ValueCount(u, x) + Is(s, x) == ValueCount(t, x) + Is(spare, x) {
      SortKeeps(t, spare, dir, d, x);
    }
    SameValues(t, spare, u, s);
  }

  /** One half sorted one way and the other the other way form a bitonic sequence. */
  lemma UpThenDown(a: seq<int>, b: seq<int>, dir: bool)
    requires Sorted(a, dir) && Sorted(b, !dir)
    ensures IsBitonic(a + b)
  {
    forall i, j, k, l ensures NoZigzag(a + b, i, j, k, l) {
    }
  }

  /** Of two halves sorted opposite ways, the pairs out of order form a final stretch, with ties too. */
  lemma UpDownOneSided(a: seq<int>, b: seq<int>, dir: bool)
    requires |a| == |b| > 0 && Sorted(a, dir) && Sorted(b, !dir)
    ensures OneSided(a, b, Exch(a[|a| - 1], b[|a| - 1], dir), dir)
  {
    var m := |a| - 1;
    forall i, j | 0 <= i < j < |a|
      ensures if Exch(a[m], b[m], dir) then Exch(a[i], b[i], dir) ==> Exch(a[j], b[j], dir)
        else Exch(a[j], b[j], dir) ==> Exch(a[i], b[i], dir)
    {
    }
  }

  /** Merging two halves that are sorted opposite ways sorts them. */
  lemma MergeHalves<N>(n: N, l: Tree<N>, v: int, r: Tree<N>, s: int, dir: bool, d: nat)
    requires d > 0 && Perfect(l, d - 1) && Perfect(r, d - 1)
    requires Sorted(Values(l, v), dir) && Sorted(Values(r, s), !dir)
    requires d <= 3 || Distinct(Values(Bin(n, l, v, r), s))
    ensures var (u, x) := Merge(Bin(n, l, v, r), s, dir, d); Sorted(Values(u, x), dir)
  {
    hide IsBitonic, Sorted, Distinct, Merge, Exch;
    var m := Bin(n, l, v, r);
    ValuesSplit(m, s);
    SameLength(l, r, d - 1);
    UpThenDown(Values(l, v), Values(r, s), dir);
    UpDownOneSided(Values(l, v), Values(r, s), dir);
    MergeStep(m, s, dir, d);
  }

  /** The values of the sorted halves are those of the tree. */
  lemma HalvesSameValues<N>(t: Tree<N>, spare: int, dir: bool, d: nat)
    requires t.Bin? && t.left.Bin? && Perfect(t, d) && Distinct(Values(t, spare))
    ensures Distinct(Values(t.left, t.value)) && Distinct(Values(t.right, spare))
    ensures t.right.Bin?
    ensures var (l, v) := Sort(t.left, t.value, dir, d - 1);
      var (r, s) := Sort(t.right, spare, !dir, d - 1);
      Distinct(Values(Bin(t.node, l, v, r), s))
  {
    hide Values, Sort, InOrder;
    var (l, v) := Sort(t.left, t.value, dir, d - 1);
    var (r, s) := Sort(t.right, spare, !dir, d - 1);
    ValuesSplit(t, spare);
    DistinctParts(Values(t.left, t.value), Values(t.right, spare));
    SortSameValues(t.left, t.value, dir, d - 1);
    SortSameValues(t.right, spare, !dir, d - 1);
    var m := Bin(t.node, l, v, r);
    ValuesSplit(m, s);
    assert multiset(Values(m, s)) == multiset(Values(l, v)) + multiset(Values(r, s));
    assert multiset(Values(t, spare)) == multiset(Values(t.left, t.value)) + multiset(Values(t.right, spare));
    assert multiset(Values(m, s)) == multiset(Values(t, spare));
  }

  /**
   `Bisort` sorts distinct values, ascending for `dir == false` and descending for `dir == true`;
   up to eight values it sorts with ties as well.
   */
  lemma {:induction false} SortSorts<N>(t: Tree<N>, spare: int, dir: bool, d: nat)
    requires t.Bin? && Perfect(t, d) && (d <= 3 || Distinct(Values(t, spare)))
    ensures Sorted(Values(Sort(t, spare, dir, d).0, Sort(t, spare, dir, d).1), dir)
    decreases d
  {
    hide Sorted, Values, Distinct, Merge;
    if t.left.Bin? {
      assert t.right.Bin?;
      if d > 3 { HalvesSameValues(t, spare, dir, d); }
      SortSorts(t.left, t.value, dir, d - 1);
      SortSorts(t.right, spare, !dir, d - 1);
      var (l, v) := Sort(t.left, t.value, dir, d - 1);
      var (r, s) := Sort(t.right, spare, !dir, d - 1);
      MergeHalves(t.node, l, v, r, s, dir, d);
    } else {
      TwoSorted(t.node, t.value, spare, dir);
    }
  }

  // ---------- ties ----------

  /** The tree of depth `k` whose values, with the spare value `y`, are all `y`. */
  ghost function Const(k: nat, y: int): (t: Tree<()>)
    ensures Perfect(t, k) && (k > 0 ==> t.Bin?)
  {
    if k == 0 then Nil else Bin((), Const(k - 1, y), y, Const(k - 1, y))
  }

  /** The tree of depth `k` whose values are a, b, c and then only `y`; its spare value is `y`. */
  ghost function Headed(k: nat, a: int, b: int, c: int, y: int): (t: Tree<()>)
    requires k >= 2
    ensures t.Bin? && Perfect(t, k)
  {
    if k == 2 then Bin((), Bin((), Nil, a, Nil), b, Bin((), Nil, c, Nil))
    else Bin((), Headed(k - 1, a, b, c, y), y, Const(k - 1, y))
  }

  lemma {:induction false} ConstInOrder(k: nat, y: int)
    ensures forall i :: 0 <= i < |InOrder(Const(k, y))| ==> InOrder(Const(k, y))[i] == y
  {
    if k > 0 { ConstInOrder(k - 1, y); }
  }

  lemma {:induction false} HeadedInOrder(k: nat, a: int, b: int, c: int, y: int)
    requires k >= 2
    ensures var s := InOrder(Headed(k, a, b, c, y));
      |s| >= 3 && s[..3] == [a, b, c] && forall i :: 3 <= i < |s| ==> s[i] == y
  {
    if k == 2 {
      var t := Headed(2, a, b, c, y);
      assert InOrder(t.left.left) == [] && InOrder(t.left.right) == [];
      assert InOrder(t.right.left) == [] && InOrder(t.right.right) == [];
      assert InOrder(t) == [a, b, c];
    } else {
      HeadedInOrder(k - 1, a, b, c, y);
      ConstInOrder(k - 1, y);
      var s := InOrder(Headed(k - 1, a, b, c, y));
      assert InOrder(Headed(k, a, b, c, y)) == s + [y] + InOrder(Const(k - 1, y));
    }
  }

  /** A perfect tree without node identities is determined by its values. */
  lemma {:induction false} PerfectUnique(t: Tree<()>, u: Tree<()>, d: nat)
    requires Perfect(t, d) && Perfect(u, d) && InOrder(t) == InOrder(u)
    ensures t == u
    decreases d
  {
    if d > 0 {
      SameLength(t.left, u.left, d - 1);
      var n := |InOrder(t.left)|;
      assert InOrder(t)[..n] == InOrder(t.left) && InOrder(u)[..n] == InOrder(u.left);
      assert InOrder(t)[n] == t.value && InOrder(u)[n] == u.value;
      assert InOrder(t)[n + 1..] == InOrder(t.right) && InOrder(u)[n + 1..] == InOrder(u.right);
      PerfectUnique(t.left, u.left, d - 1);
      PerfectUnique(t.right, u.right, d - 1);
      assert t.node == u.node;
    }
  }

  /** No value on the leftmost path of the first tree is out of order with `y`. */
  ghost predicate SpineKept<N>(t: Tree<N>, y: int, dir: bool) {
    t.Bin? ==> !Exch(t.value, y, dir) && SpineKept(t.left, y, dir)
  }

  /** Against a constant right half the descent without root exchange looks at the leftmost path only. */
  lemma {:induction false} DescendIdle(l: Tree<()>, k: nat, y: int, dir: bool)
    requires Perfect(l, k) && SpineKept(l, y, dir)
    ensures Descend(l, Const(k, y), false, dir, k) == (l, Const(k, y))
    decreases k
  {
    if k > 0 {
      DescendIdle(l.left, k - 1, y, dir);
    }
  }

  lemma {:induction false} ConstSpine(k: nat, y: int, dir: bool)
    requires !Exch(y, y, dir)
    ensures SpineKept(Const(k, y), y, dir)
  {
    if k > 0 { ConstSpine(k - 1, y, dir); }
  }

  lemma {:induction false} HeadedSpine(k: nat, a: int, b: int, c: int, y: int, dir: bool)
    requires k >= 2 && !Exch(a, y, dir) && !Exch(b, y, dir) && !Exch(y, y, dir)
    ensures SpineKept(Headed(k, a, b, c, y), y, dir)
  {
    if k > 2 {
      HeadedSpine(k - 1, a, b, c, y, dir);
    } else {
      var t := Headed(2, a, b, c, y);
      assert t.left.left.Nil?;
    }
  }

  /** Descending through two equal trees changes nothing, whatever is exchanged. */
  lemma {:induction false} DescendSame(t: Tree<()>, right: bool, dir: bool, d: nat)
    requires Perfect(t, d)
    ensures Descend(t, t, right, dir, d) == (t, t)
    decreases d
  {
    if d > 0 {
      DescendSame(t.left, right, dir, d - 1);
      DescendSame(t.right, right, dir, d - 1);
    }
  }

  lemma {:induction false} MergeConst(k: nat, y: int, dir: bool)
    requires k > 0
    ensures Merge(Const(k, y), y, dir, k) == (Const(k, y), y)
    decreases k
  {
    DescendSame(Const(k - 1, y), Exch(y, y, dir), dir, k - 1);
    if k > 1 { MergeConst(k - 1, y, dir); }
  }

  lemma {:induction false} SortConst(k: nat, y: int, dir: bool)
    requires k > 0
    ensures Sort(Const(k, y), y, dir, k) == (Const(k, y), y)
    decreases k
  {
    if k > 1 {
      SortConst(k - 1, y, dir);
      SortConst(k - 1, y, !dir);
      MergeConst(k, y, dir);
    } else {
      assert Const(1, y).left == Nil;
    }
  }

  /**
   The values 1, 1, 2 followed by ones only are bitonic, but from eight values on ascending merging
   does not sort them: the descent looks at places 0, 1, 3, 7, ... and misses the 2 at place 2.
   */
  lemma MergeMisses(k: nat)
    requires k >= 3
    ensures var (u, s) := Merge(Headed(k, 1, 1, 2, 1), 1, false, k); !Sorted(Values(u, s), false)
  {
    var l := Headed(k - 1, 1, 1, 2, 1);
    HeadedSpine(k - 1, 1, 1, 2, 1, false);
    DescendIdle(l, k - 1, 1, false);
    MergeConst(k - 1, 1, false);
    var (l', v') := Merge(l, 1, false, k - 1);
    MergeSameValues(l, 1, false, k - 1);
    HeadedInOrder(k - 1, 1, 1, 2, 1);
    assert Values(l, 1)[2] == InOrder(l)[..3][2] == 2;
    var u := Bin((), l', v', Const(k - 1, 1));
    assert Merge(Headed(k, 1, 1, 2, 1), 1, false, k) == (u, 1);
    ValuesSplit(u, 1);
    Misplaced(Values(l, 1), Values(l', v'), Values(Const(k - 1, 1), 1));
  }

  /** A 2 somewhere in the first part and a 1 at the end of the second. */
  lemma Misplaced(a: seq<int>, a': seq<int>, b: seq<int>)
    requires multiset(a) == multiset(a') && |a| > 2 && a[2] == 2 && b != [] && b[|b| - 1] == 1
    ensures !Sorted(a' + b, false)
  {
    assert 2 in multiset(a');
    var i :| 0 <= i < |a'| && a'[i] == 2;
    assert (a' + b)[i] == 2 && (a' + b)[|a' + b| - 1] == 1;
  }

  /** Cleaning the sorted halves 1,1,2,2,... and 2,2,2,1,...,1 leaves 1,1,2,1,...,1 in the lower one. */
  lemma HalvesCleaned(k: nat)
    requires k >= 3
    ensures Descend(Headed(k, 1, 1, 2, 2), Headed(k, 2, 2, 2, 1), true, false, k).0 == Headed(k, 1, 1, 2, 1)
  {
    hide Headed, Const, Descend, Perfect, InOrder;
    var l, r, low := Headed(k, 1, 1, 2, 2), Headed(k, 2, 2, 2, 1), Headed(k, 1, 1, 2, 1);
    HeadedInOrder(k, 1, 1, 2, 2);
    HeadedInOrder(k, 2, 2, 2, 1);
    HeadedInOrder(k, 1, 1, 2, 1);
    SameLength(l, r, k);
    SameLength(l, low, k);
    var a, b, c := InOrder(l), InOrder(r), InOrder(low);
    assert forall i :: 0 <= i < 3 ==> a[i] == a[..3][i] && b[i] == b[..3][i] && c[i] == c[..3][i];
    assert OneSided(a, b, true, false);
    DescendCleans(l, r, true, false, k);
    assert Half(a, b, true, false) == c;
    PerfectUnique(Descend(l, r, true, false, k).0, low, k);
  }

  /** Merging those halves meets that case. */
  lemma MergeOfHalvesMisses(k: nat)
    requires k >= 3
    ensures var t := Bin((), Headed(k, 1, 1, 2, 2), 2, Headed(k, 2, 2, 2, 1));
      !Sorted(Values(Merge(t, 1, false, k + 1).0, Merge(t, 1, false, k + 1).1), false)
  {
    hide Headed, Descend, Sorted, InOrder, Values;
    var t := Bin((), Headed(k, 1, 1, 2, 2), 2, Headed(k, 2, 2, 2, 1));
    var (low, r) := Descend(t.left, t.right, true, false, k);
    HalvesCleaned(k);
    MergeMisses(k);
    var (u, v) := Merge(low, 1, false, k);
    var (w, s) := Merge(r, 2, false, k);
    assert Merge(t, 1, false, k + 1) == (Bin((), u, v, w), s);
    ValuesSplit(Bin((), u, v, w), s);
    SortedPrefix(Values(u, v), Values(w, s), false);
  }

  lemma SortedPrefix(a: seq<int>, b: seq<int>, dir: bool)
    ensures Sorted(a + b, dir) ==> Sorted(a, dir)
  {
    if Sorted(a + b, dir) {
      assert forall i :: 0 <= i < |a| ==> (a + b)[i] == a[i];
    }
  }

  /** Ascending, 1,1,2,2,...,2 is left as it is by merging and by sorting. */
  lemma {:induction false} AscendingKept(k: nat)
    requires k >= 2
    ensures Merge(Headed(k, 1, 1, 2, 2), 2, false, k) == (Headed(k, 1, 1, 2, 2), 2)
    ensures Sort(Headed(k, 1, 1, 2, 2), 2, false, k) == (Headed(k, 1, 1, 2, 2), 2)
    decreases k
  {
    if k == 2 {
      var one, two: Tree<()> := Bin((), Nil, 1, Nil), Bin((), Nil, 2, Nil);
      assert Headed(2, 1, 1, 2, 2) == Bin((), one, 1, two);
      assert Descend(one, two, false, false, 1) == (one, two);
      assert Descend<()>(Nil, Nil, false, false, 0) == (Nil, Nil);
      assert Merge(one, 1, false, 1) == (one, 1) && Merge(two, 2, false, 1) == (two, 2);
      assert Sort(one, 1, false, 1) == (one, 1) && Sort(two, 2, true, 1) == (two, 2);
    } else {
      AscendingKept(k - 1);
      HeadedSpine(k - 1, 1, 1, 2, 2, false);
      DescendIdle(Headed(k - 1, 1, 1, 2, 2), k - 1, 2, false);
      MergeConst(k - 1, 2, false);
      SortConst(k - 1, 2, true);
    }
  }

  lemma {:induction false} DescendDescending(k: nat)
    requires k >= 2
    ensures Descend(Headed(k, 2, 2, 2, 1), Const(k, 1), true, true, k) == (Headed(k, 2, 2, 2, 1), Const(k, 1))
    decreases k
  {
    if k == 2 {
      var one, two: Tree<()> := Bin((), Nil, 1, Nil), Bin((), Nil, 2, Nil);
      assert Headed(2, 2, 2, 2, 1) == Bin((), two, 2, two);
      assert Const(1, 1) == one by { assert Const(0, 1) == Nil; }
      assert Const(2, 1) == Bin((), one, 1, one);
      assert Descend<()>(Nil, Nil, true, true, 0) == (Nil, Nil);
      assert Descend(two, one, true, true, 1) == (two, one);
    } else {
      DescendDescending(k - 1);
    }
  }

  /** Descending, 2,2,2,1,...,1 is left as it is by merging and by sorting. */
  lemma {:induction false} DescendingKept(k: nat)
    requires k >= 2
    ensures Merge(Headed(k, 2, 2, 2, 1), 1, true, k) == (Headed(k, 2, 2, 2, 1), 1)
    ensures Sort(Headed(k, 2, 2, 2, 1), 1, true, k) == (Headed(k, 2, 2, 2, 1), 1)
    decreases k
  {
    if k == 2 {
      var one, two: Tree<()> := Bin((), Nil, 1, Nil), Bin((), Nil, 2, Nil);
      var t, m := Bin((), two, 2, two), Bin((), two, 2, one);
      assert Headed(2, 2, 2, 2, 1) == t;
      assert forall right :: Descend<()>(Nil, Nil, right, true, 0) == (Nil, Nil);
      assert Descend(two, two, false, true, 1) == (two, two) && Descend(two, one, true, true, 1) == (two, one);
      assert Merge(two, 2, true, 1) == (two, 2) && Merge(two, 1, true, 1) == (two, 1) && Merge(one, 2, true, 1) == (two, 1);
      assert Merge(t, 1, true, 2) == (t, 1) && Merge(m, 2, true, 2) == (t, 1);
      assert Sort(two, 2, true, 1) == (two, 2) && Sort(two, 1, false, 1) == (one, 2);
    } else {
      DescendingKept(k - 1);
      DescendDescending(k - 1);
      MergeConst(k - 1, 1, true);
      SortConst(k - 1, 1, false);
    }
  }

  /** From sixteen values on there are values with ties that `Bisort` does not sort. */
  lemma SortMisses(d: nat)
    requires d >= 4
    ensures var t := Bin((), Headed(d - 1, 1, 1, 2, 2), 2, Headed(d - 1, 2, 2, 2, 1));
      Perfect(t, d) && !Sorted(Values(Sort(t, 1, false, d).0, Sort(t, 1, false, d).1), false)
  {
    AscendingKept(d - 1);
    DescendingKept(d - 1);
    MergeOfHalvesMisses(d - 1);
  }

  ghost predicate SortsEverything(d: nat) {
    forall t: Tree<()>, spare: int, dir: bool :: t.Bin? && Perfect(t, d) ==>
      Sorted(Values(Sort(t, spare, dir, d).0, Sort(t, spare, dir, d).1), dir)
  }

  /** `Bisort` sorts all inputs of a size, ties included, exactly up to eight values. */
  lemma SortsEverythingIff(d: nat)
    requires d > 0
    ensures SortsEverything(d) <==> d <= 3
  {
    if d <= 3 {
      forall t: Tree<()>, spare: int, dir: bool | t.Bin? && Perfect(t, d)
        ensures Sorted(Values(Sort(t, spare, dir, d).0, Sort(t, spare, dir, d).1), dir)
      {
        SortSorts(t, spare, dir, d);
      }
    } else {
      SortMisses(d);
      var t := Bin((), Headed(d - 1, 1, 1, 2, 2), 2, Headed(d - 1, 2, 2, 2, 1));
      assert t.Bin? && Perfect(t, d);
    }
  }
}
