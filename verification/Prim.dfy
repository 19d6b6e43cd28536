/**
 `BlueRule` and `ComputeMst` of `olden_mst/src/main.c`: Prim's algorithm over a linked list of
 the vertices that are still out, from which the vertex inserted last is spliced, with edge
 weights looked up in the hash table of each vertex.  `ComputeMst` is proved to return the weight
 of a minimum spanning tree.
 */
module Prim {
  import opened EdgeHash
  import opened Spanning

  const SENTINEL: int := 9999999

  class Vertex {
    const key: nat
    const edgehash: Hash
    var mindist: int
    var next: Vertex?

    constructor (key: nat, edgehash: Hash)
      ensures this.key == key && this.edgehash == edgehash && mindist == SENTINEL && next == null
    {
      this.key, this.edgehash, mindist, next := key, edgehash, SENTINEL, null;
    }
  }

  class Graph {
    var vlist: Vertex?

    constructor (v: Vertex?)
      ensures vlist == v
    {
      vlist := v;
    }
  }

  // ---------- the graph in the heap ----------

  /** Symmetric positive weights below the sentinel. */
  ghost predicate Weights(w: (nat, nat) -> nat) {
    Symmetric(w) && forall a, b :: 0 < w(a, b) < SENTINEL
  }

  ghost predicate DistinctVerts(verts: seq<Vertex>) {
    forall i, j :: 0 <= i < j < |verts| ==> verts[i] != verts[j]
  }

  /** The table of vertex `i` finds the weight of the edge to every other vertex. */
  ghost predicate Hashed(verts: seq<Vertex>, w: (nat, nat) -> nat, i: nat)
    requires i < |verts|
    reads verts[i].edgehash, verts[i].edgehash.buckets, verts[i].edgehash.entries
  {
    && verts[i].edgehash.Valid()
    && forall j :: 0 <= j < |verts| && j != i ==> verts[i].edgehash.Top(verts[j].key) == w(j, i)
  }

  ghost predicate AllHashed(verts: seq<Vertex>, w: (nat, nat) -> nat)
    reads set v | v in verts :: v.edgehash
    reads set v | v in verts :: v.edgehash.buckets
    reads set v, e | v in verts && e in v.edgehash.entries :: e
  {
    forall i :: 0 <= i < |verts| ==> Hashed(verts, w, i)
  }

  // The links and the distances of all vertices.

  ghost function Nexts(verts: seq<Vertex>): (n: seq<Vertex?>)
    reads verts
    ensures |n| == |verts| && forall i :: 0 <= i < |n| ==> n[i] == verts[i].next
  {
    seq(|verts|, i requires 0 <= i < |verts| reads verts => verts[i].next)
  }

  ghost function MinDists(verts: seq<Vertex>): (d: seq<int>)
    reads verts
    ensures |d| == |verts| && forall i :: 0 <= i < |d| ==> d[i] == verts[i].mindist
  {
    seq(|verts|, i requires 0 <= i < |verts| reads verts => verts[i].mindist)
  }

  // ---------- lists ----------

  ghost predicate ListOf(l: seq<nat>, n: nat) {
    && (forall k :: 0 <= k < |l| ==> l[k] < n)
    && forall i, j :: 0 <= i < j < |l| ==> l[i] != l[j]
  }

  ghost function Node(verts: seq<Vertex>, l: seq<nat>, k: nat): Vertex?
    requires ListOf(l, |verts|)
  {
    if k < |l| then verts[l[k]] else null
  }

  /** The vertices with the numbers in `l` are linked from `p` on. */
  ghost predicate IsList(p: Vertex?, verts: seq<Vertex>, l: seq<nat>, nexts: seq<Vertex?>) {
    && ListOf(l, |verts|) && |nexts| == |verts| && p == Node(verts, l, 0)
    && forall k {:trigger nexts[l[k]]} :: 0 <= k < |l| ==> nexts[l[k]] == Node(verts, l, k + 1)
  }

  /** Every listed vertex but `a` has the weight of its nearest edge to `s` as its distance. */
  ghost predicate Dists(l: seq<nat>, dists: seq<int>, a: nat, s: set<nat>, w: (nat, nat) -> nat) {
    forall k {:trigger dists[l[k]]} :: 0 <= k < |l| && l[k] != a && l[k] < |dists| ==> Nearest(w, s, l[k], dists[l[k]], SENTINEL)
  }

  /** The lesser of the old distance and the weight of the edge to `a`. */
  function Relaxed(w: (nat, nat) -> nat, a: nat, x: nat, d: int): int {
    if w(a, x) < d then w(a, x) else d
  }

  lemma NearestGrows(w: (nat, nat) -> nat, s: set<nat>, x: nat, d: int, a: nat)
    requires Nearest(w, s, x, d, SENTINEL) && w(a, x) < SENTINEL
    ensures Nearest(w, s + {a}, x, Relaxed(w, a, x, d), SENTINEL)
  {
    if !(w(a, x) < d) {
      var b :| b in s && d == w(b, x);
      assert b in s + {a};
    } else {
      assert a in s + {a};
    }
  }

  /** The list without place `q`, if there is one. */
  ghost function Spliced(l: seq<nat>, q: nat): seq<nat> {
    if q < |l| then l[..q] + l[q + 1..] else l
  }

  // ---------- BlueRule ----------

  /** The state of the loop of `BlueRule` before place `k`; the vertex `a` inserted last is at place `q`, if listed. */
  ghost predicate Scanned(verts: seq<Vertex>, l: seq<nat>, k: nat, q: nat, a: nat, s: set<nat>, w: (nat, nat) -> nat,
                          nexts: seq<Vertex?>, dists: seq<int>, m: nat, dist: int)
  {
    && ListOf(l, |verts|) && |nexts| == |dists| == |verts| && 1 <= k <= |l|
    && (forall j {:trigger nexts[l[j]]} :: 0 <= j < |l| ==>
          nexts[l[j]] == if j + 1 == q && q < k then Node(verts, l, q + 1) else Node(verts, l, j + 1))
    && (forall j {:trigger dists[l[j]]} :: 0 <= j < |l| && j != q ==>
          Nearest(w, if j < k then s + {a} else s, l[j], dists[l[j]], SENTINEL))
    && m < k && m != q && dist == dists[l[m]]
    && forall j {:trigger dists[l[j]]} :: 0 <= j < k && j != q ==> dist <= dists[l[j]]
  }

  lemma ScanStart(verts: seq<Vertex>, l: seq<nat>, q: nat, a: nat, s: set<nat>, w: (nat, nat) -> nat,
                  p: Vertex?, nexts: seq<Vertex?>, dists: seq<int>)
    requires Weights(w) && IsList(p, verts, l, nexts) && Dists(l, dists, a, s, w) && |dists| == |verts| && l != []
    requires 0 < q <= |l| && forall k :: 0 <= k < |l| ==> (l[k] == a <==> k == q)
    ensures var d := Relaxed(w, a, l[0], dists[l[0]]);
      Scanned(verts, l, 1, q, a, s, w, nexts, dists[l[0] := d], 0, d)
  {
    NearestGrows(w, s, l[0], dists[l[0]], a);
    var d := Relaxed(w, a, l[0], dists[l[0]]);
    forall j | 0 <= j < |l| && j != q
      ensures Nearest(w, if j < 1 then s + {a} else s, l[j], dists[l[0] := d][l[j]], SENTINEL)
    {
      assert j > 0 ==> dists[l[0] := d][l[j]] == dists[l[j]];
    }
  }

  lemma ScanNext(verts: seq<Vertex>, l: seq<nat>, k: nat, q: nat, a: nat, s: set<nat>, w: (nat, nat) -> nat,
                 nexts: seq<Vertex?>, dists: seq<int>, m: nat, dist: int)
    requires Scanned(verts, l, k, q, a, s, w, nexts, dists, m, dist) && k < |l|
    ensures nexts[l[k]] == Node(verts, l, k + 1) && l[k] != l[k - 1]
  {
  }

  /** The step over the inserted vertex: its predecessor is linked to its successor. */
  lemma ScanSplice(verts: seq<Vertex>, l: seq<nat>, k: nat, q: nat, a: nat, s: set<nat>, w: (nat, nat) -> nat,
                   nexts: seq<Vertex?>, dists: seq<int>, m: nat, dist: int)
    requires Scanned(verts, l, k, q, a, s, w, nexts, dists, m, dist) && k < |l| && k == q
    ensures Scanned(verts, l, k + 1, q, a, s, w, nexts[l[k - 1] := nexts[l[k]]], dists, m, dist)
  {
  }

  /** The step over any other vertex: its distance is brought up to date and compared. */
  lemma ScanStep(verts: seq<Vertex>, l: seq<nat>, k: nat, q: nat, a: nat, s: set<nat>, w: (nat, nat) -> nat,
                 nexts: seq<Vertex?>, dists: seq<int>, m: nat, dist: int)
    requires Weights(w) && Scanned(verts, l, k, q, a, s, w, nexts, dists, m, dist) && k < |l| && k != q
    ensures var d := Relaxed(w, a, l[k], dists[l[k]]);
      Scanned(verts, l, k + 1, q, a, s, w, nexts, dists[l[k] := d], if d < dist then k else m, if d < dist then d else dist)
  {
    NearestGrows(w, s, l[k], dists[l[k]], a);
  }

  /** Place `m` is that of a vertex with the least distance, the one at place `q` left aside. */
  ghost predicate Picked(l: seq<nat>, q: nat, dists: seq<int>, m: nat, dist: int) {
    && m < |l| && m != q && (forall k :: 0 <= k < |l| ==> l[k] < |dists|) && dist == dists[l[m]]
    && forall k {:trigger dists[l[k]]} :: 0 <= k < |l| && k != q ==> dist <= dists[l[k]]
  }

  /** At the end the list is the old one without the inserted vertex, and all distances are up to date. */
  lemma ScanEnd(p: Vertex?, verts: seq<Vertex>, l: seq<nat>, q: nat, a: nat, s: set<nat>, w: (nat, nat) -> nat,
                nexts: seq<Vertex?>, dists: seq<int>, m: nat, dist: int)
    requires Scanned(verts, l, |l|, q, a, s, w, nexts, dists, m, dist) && p == Node(verts, l, 0)
    requires 0 < q <= |l|
    ensures IsList(p, verts, Spliced(l, q), nexts) && Dists(Spliced(l, q), dists, a, s + {a}, w)
    ensures Picked(l, q, dists, m, dist)
  {
    var r := Spliced(l, q);
    assert forall k :: 0 <= k < |r| ==> r[k] == if k < q then l[k] else l[k + 1];
  }

  /** One relaxation: look the edge up and lower the distance if the edge is shorter. */
  method Relax(v: Vertex, inserted: Vertex, ghost verts: seq<Vertex>, ghost w: (nat, nat) -> nat, ghost x: nat, ghost a: nat)
    returns (dist2: int)
    requires Weights(w) && DistinctVerts(verts) && AllHashed(verts, w)
    requires x < |verts| && a < |verts| && x != a && v == verts[x] && inserted == verts[a]
    modifies v`mindist
    ensures dist2 == Relaxed(w, a, x, old(v.mindist))
    ensures MinDists(verts) == old(MinDists(verts))[x := dist2] && Nexts(verts) == old(Nexts(verts))
    ensures AllHashed(verts, w)
  {
    assert Hashed(verts, w, x);
    dist2 := v.mindist;
    var dist := v.edgehash.HashLookup(inserted.key);
    if dist != 0 {
      if dist < dist2 {
        v.mindist := dist;
        dist2 := dist;
      }
    }
  }

  /** `prev->next = next`. */
  method Link(prev: Vertex, next: Vertex?, ghost verts: seq<Vertex>, ghost w: (nat, nat) -> nat, ghost x: nat)
    requires DistinctVerts(verts) && x < |verts| && prev == verts[x] && AllHashed(verts, w)
    modifies prev`next
    ensures Nexts(verts) == old(Nexts(verts))[x := next] && MinDists(verts) == old(MinDists(verts))
    ensures AllHashed(verts, w)
  {
    prev.next := next;
  }

  /**
   `BlueRule`: splices the vertex inserted last (number `a`, at place `q` if it is listed) out of the
   list, brings all distances up to date, and returns a vertex with the least distance.
   */
  method BlueRule(inserted: Vertex, vlist: Vertex?, ghost verts: seq<Vertex>, ghost w: (nat, nat) -> nat,
                  ghost l: seq<nat>, ghost q: nat, ghost a: nat, ghost s: set<nat>)
    returns (vert: Vertex?, dist: int, ghost m: nat)
    requires Weights(w) && DistinctVerts(verts) && AllHashed(verts, w)
    requires IsList(vlist, verts, l, Nexts(verts)) && Dists(l, MinDists(verts), a, s, w)
    requires a < |verts| && inserted == verts[a]
    requires 0 < q && (l != [] ==> q <= |l|) && forall k :: 0 <= k < |l| ==> (l[k] == a <==> k == q)
    modifies verts
    ensures l == [] ==> vert == null && dist == 999999
    ensures l != [] ==> m < |l| && vert == verts[l[m]] && Picked(l, q, MinDists(verts), m, dist)
    ensures l != [] ==>
      IsList(vlist, verts, Spliced(l, q), Nexts(verts)) && Dists(Spliced(l, q), MinDists(verts), a, s + {a}, w)
    ensures AllHashed(verts, w)
  {
    assert ListOf(l, |verts|) && vlist == Node(verts, l, 0);
    assert l != [] ==> verts[l[0]].next == Node(verts, l, 1) by {
      assert l != [] ==> Nexts(verts)[l[0]] == Node(verts, l, 1);
    }
    hide AllHashed, Nexts, MinDists, Weights, Nearest, Relaxed, IsList, Dists, Spliced, Picked, Scanned;
    vert, dist, m := null, 999999, 0;
    if vlist != null {
      ScanStart(verts, l, q, a, s, w, vlist, Nexts(verts), MinDists(verts));
      vert, dist, m := ScanList(inserted, vlist, verts, w, l, q, a, s);
      ScanEnd(vlist, verts, l, q, a, s, w, Nexts(verts), MinDists(verts), m, dist);
    }
  }

  /** The first vertex and the loop of `BlueRule`. */
  method ScanList(inserted: Vertex, vlist: Vertex, ghost verts: seq<Vertex>, ghost w: (nat, nat) -> nat,
                  ghost l: seq<nat>, ghost q: nat, ghost a: nat, ghost s: set<nat>)
    returns (vert: Vertex, dist: int, ghost m: nat)
    requires Weights(w) && DistinctVerts(verts) && AllHashed(verts, w)
    requires ListOf(l, |verts|) && l != [] && vlist == verts[l[0]] && a < |verts| && inserted == verts[a]
    requires vlist.next == Node(verts, l, 1)
    requires 0 < q <= |l| && forall k :: 0 <= k < |l| ==> (l[k] == a <==> k == q)
    requires var d := Relaxed(w, a, l[0], vlist.mindist);
      Scanned(verts, l, 1, q, a, s, w, Nexts(verts), MinDists(verts)[l[0] := d], 0, d)
    modifies verts
    ensures Scanned(verts, l, |l|, q, a, s, w, Nexts(verts), MinDists(verts), m, dist)
    ensures AllHashed(verts, w) && m < |l| && vert == verts[l[m]]
  {
    hide AllHashed, Nexts, MinDists, Weights, Nearest, Relaxed, Scanned;
    var prev := vlist;
    vert, m := vlist, 0;
    dist := Relax(vlist, inserted, verts, w, l[0], a);
    var tmp := vlist.next;
    ghost var k := 1;
    while tmp != null
      invariant 1 <= k <= |l| && Scanned(verts, l, k, q, a, s, w, Nexts(verts), MinDists(verts), m, dist)
      invariant AllHashed(verts, w) && m < |l|
      invariant tmp == Node(verts, l, k) && prev == verts[l[k - 1]] && vert == verts[l[m]]
      decreases |l| - k
    {
      ScanNext(verts, l, k, q, a, s, w, Nexts(verts), MinDists(verts), m, dist);
      if tmp == inserted {
        assert k == q;
        ScanSplice(verts, l, k, q, a, s, w, Nexts(verts), MinDists(verts), m, dist);
        Link(prev, tmp.next, verts, w, l[k - 1]);
      } else {
        assert k != q;
        ScanStep(verts, l, k, q, a, s, w, Nexts(verts), MinDists(verts), m, dist);
        var dist2 := Relax(tmp, inserted, verts, w, l[k], a);
        if dist2 < dist {
          vert, dist, m := tmp, dist2, k;
        }
      }
      prev, tmp := tmp, tmp.next;
      k := k + 1;
    }
  }

  // ---------- ComputeMst ----------

  ghost function Upto(n: nat): (v: set<nat>)
    ensures |v| == n && forall i :: i in v <==> 0 <= i < n
  {
    if n == 0 then {} else Upto(n - 1) + {n - 1}
  }

  ghost function Members(l: seq<nat>): set<nat> {
    set i | i in l
  }

  function Iota(n: nat): (l: seq<nat>)
    ensures |l| == n && forall k :: 0 <= k < n ==> l[k] == k
  {
    seq(n, k => k)
  }

  /**
   Before every round: `s` and `a`, the vertex chosen last, are connected by `tree`; the list holds exactly
   the vertices outside `s` (with or without `a`), each with its least edge into `s` as its distance;
   and whatever connecting edges one compares with, what has been spent can be completed for no more.
   */
  ghost predicate Growing(n: nat, w: (nat, nat) -> nat, l: seq<nat>, dists: seq<int>, a: nat, s: set<nat>,
                          tree: seq<Edge>, cost: int, numvert: nat)
  {
    var v := Upto(n);
    && s <= v && a in v - s && Members(l) + {a} == v - s && |dists| == n && Dists(l, dists, a, s, w)
    && SpanningTree(tree, s + {a}) && Weight(w, tree) == cost && numvert == |v| - |s| - 1
    && forall t :: Connected(t, v) ==> NotAbove(w, t, s + {a}, v, cost)
  }

  lemma StartsGrowing(n: nat, w: (nat, nat) -> nat, dists: seq<int>)
    requires n > 0 && |dists| == n && forall i :: 0 <= i < n ==> dists[i] == SENTINEL
    ensures Growing(n, w, Iota(n)[1..], dists, 0, {}, [], 0, n - 1)
  {
    var v, l := Upto(n), Iota(n)[1..];
    AllButFirst(n);
    LonelyRoot(w);
    assert v - {} == v && {} + {0} == {0};
    hide SpanningTree, Weight, Connected, NotAbove, Members;
    forall t | Connected(t, v) ensures NotAbove(w, t, {0}, v, 0) {
      NothingAbove(w, t, v);
    }
  }

  lemma AllButFirst(n: nat)
    requires n > 0
    ensures Members(Iota(n)[1..]) + {0} == Upto(n)
  {
    var l := Iota(n)[1..];
    forall i | i in Upto(n) ensures i in Members(l) + {0} {
      assert i > 0 ==> l[i - 1] == i;
    }
  }

  /** One vertex, no edge. */
  lemma LonelyRoot(w: (nat, nat) -> nat)
    ensures SpanningTree([], {0}) && Weight(w, []) == 0
  {
  }

  lemma NothingAbove(w: (nat, nat) -> nat, t: seq<Edge>, v: set<nat>)
    requires Connected(t, v) && 0 in v
    ensures NotAbove(w, t, {0}, v, 0)
  {
    ConnectedConnectsTo(t, {0}, v);
  }

  /** The distance of the chosen vertex is the least weight of any edge from `s` to the rest. */
  lemma LeastEdge(n: nat, w: (nat, nat) -> nat, l: seq<nat>, q: nat, a: nat, s: set<nat>, dists: seq<int>, m: nat, d: int)
    requires ListOf(l, n) && |dists| == n && Picked(l, q, dists, m, d) && m < |l| && l[m] != a && s != {}
    requires Dists(Spliced(l, q), dists, a, s, w)
    ensures Nearest(w, s, l[m], d, SENTINEL)
    ensures forall x, c :: x in Spliced(l, q) && x != a && c in s ==> d <= w(c, x)
  {
    var r := Spliced(l, q);
    SplicedAt(l, q, m);
    var k :| 0 <= k < |r| && r[k] == l[m];
    assert dists[r[k]] == d;
    forall x, c | x in r && x != a && c in s ensures d <= w(c, x) {
      var i :| 0 <= i < |l| && i != q && l[i] == x;
      var j :| 0 <= j < |r| && r[j] == x;
      assert d <= dists[l[i]] == dists[r[j]] <= w(c, x);
    }
  }

  /** Choosing the listed vertex with the least distance keeps all that. */
  lemma KeepsGrowing(n: nat, w: (nat, nat) -> nat, l: seq<nat>, dists: seq<int>, a: nat, s: set<nat>, tree: seq<Edge>,
                     cost: int, numvert: nat, q: nat, dists': seq<int>, m: nat, d: int) returns (tree': seq<Edge>)
    requires Weights(w) && Growing(n, w, l, dists, a, s, tree, cost, numvert) && numvert > 0
    requires ListOf(l, n) && 0 < q <= |l| && forall k :: 0 <= k < |l| ==> (l[k] == a <==> k == q)
    requires |dists'| == n && Dists(Spliced(l, q), dists', a, s + {a}, w) && m < |l| && Picked(l, q, dists', m, d)
    ensures Growing(n, w, Spliced(l, q), dists', l[m], s + {a}, tree', cost + d, numvert - 1)
  {
    var v, r, u, s' := Upto(n), Spliced(l, q), l[m], s + {a};
    assert u != a;
    SplicedMembers(l, q, a, n);
    SplicedAt(l, q, m);
    assert Members(r) == (Members(l) + {a}) - {a} == (v - s) - {a} == v - s';
    assert u in Members(r);
    LeastEdge(n, w, l, q, a, s', dists', m, d);
    assert Dists(r, dists', u, s', w);
    hide Dists, Picked, Spliced, ListOf, Weights;
    var b :| b in s' && d == w(b, u);
    tree' := tree + [(b, u)];
    TreeGrows(tree, s', b, u);
    WeightGrows(w, tree, (b, u));
    assert forall x, c :: x in v - s' && c in s' ==> d <= w(c, x) by {
      forall x, c | x in v - s' && c in s' ensures d <= w(c, x) {
        assert x in Members(r);
      }
    }
    forall t | Connected(t, v) ensures NotAbove(w, t, s' + {u}, v, cost + d) {
      NearestNotAbove(w, t, s', v, cost, u, d, SENTINEL);
    }
    assert Members(r) + {u} == v - s';
  }

  lemma SplicedMembers(l: seq<nat>, q: nat, a: nat, n: nat)
    requires ListOf(l, n) && q <= |l| && forall k :: 0 <= k < |l| ==> (l[k] == a <==> k == q)
    ensures Members(Spliced(l, q)) == Members(l) - {a}
  {
    var r := Spliced(l, q);
    assert forall k :: 0 <= k < |r| ==> r[k] == if k < q then l[k] else l[k + 1];
    forall x | x in Members(l) - {a} ensures x in Members(r) {
      var k :| 0 <= k < |l| && l[k] == x;
      assert r[if k < q then k else k - 1] == x;
    }
  }

  /** At the end all vertices are in the tree, and no connecting edges weigh less. */
  lemma GrownIsMinimum(n: nat, w: (nat, nat) -> nat, l: seq<nat>, dists: seq<int>, a: nat, s: set<nat>, tree: seq<Edge>,
                       cost: int)
    requires Growing(n, w, l, dists, a, s, tree, cost, 0)
    ensures IsMinimum(w, Upto(n), cost)
  {
    var v := Upto(n);
    assert s + {a} <= v && |s + {a}| == |s| + 1;
    if s + {a} != v {
      SmallerSet(s + {a}, v);
    }
    assert SpanningTree(tree, v);
  }

  lemma SplicedAt(l: seq<nat>, q: nat, m: nat)
    requires m < |l| && m != q
    ensures l[m] in Spliced(l, q)
    ensures forall x :: x in Spliced(l, q) ==> exists k :: 0 <= k < |l| && k != q && l[k] == x
  {
    var r := Spliced(l, q);
    assert forall k :: 0 <= k < |r| ==> r[k] == if k < q then l[k] else l[k + 1];
    assert r[if m < q then m else m - 1] == l[m];
    forall x | x in r ensures exists k :: 0 <= k < |l| && k != q && l[k] == x {
      var k :| 0 <= k < |r| && r[k] == x;
      assert l[if k < q then k else k + 1] == x;
    }
  }

  /** A place for `a` in the list: its own, or behind the end. */
  lemma PlaceOf(l: seq<nat>, a: nat, n: nat) returns (q: nat)
    requires ListOf(l, n)
    ensures q <= |l| && forall k :: 0 <= k < |l| ==> (l[k] == a <==> k == q)
  {
    if a in l {
      q :| 0 <= q < |l| && l[q] == a;
    } else {
      q := |l|;
    }
  }

  lemma ListHead(p: Vertex?, verts: seq<Vertex>, l: seq<nat>, nexts: seq<Vertex?>)
    requires IsList(p, verts, l, nexts)
    ensures ListOf(l, |verts|) && p == Node(verts, l, 0)
  {
  }

  lemma ListTail(p: Vertex?, verts: seq<Vertex>, l: seq<nat>, nexts: seq<Vertex?>)
    requires IsList(p, verts, l, nexts) && l != []
    ensures p == verts[l[0]] && IsList(nexts[l[0]], verts, l[1..], nexts)
  {
    var r := l[1..];
    forall k | 0 <= k < |r| ensures nexts[r[k]] == Node(verts, r, k + 1) {
      assert nexts[l[k + 1]] == Node(verts, l, k + 2);
    }
  }

  lemma DropFirst(n: nat, w: (nat, nat) -> nat, l: seq<nat>, dists: seq<int>, a: nat, s: set<nat>, tree: seq<Edge>,
                  cost: int, numvert: nat)
    requires Growing(n, w, l, dists, a, s, tree, cost, numvert) && ListOf(l, n) && l != [] && l[0] == a
    ensures Growing(n, w, l[1..], dists, a, s, tree, cost, numvert) && a !in l[1..]
  {
    assert l == [a] + l[1..];
    assert Members(l) == Members(l[1..]) + {a};
  }

  lemma StillOut(n: nat, w: (nat, nat) -> nat, l: seq<nat>, dists: seq<int>, a: nat, s: set<nat>, tree: seq<Edge>,
                 cost: int, numvert: nat)
    requires Growing(n, w, l, dists, a, s, tree, cost, numvert) && numvert > 0
    ensures l != [] && Dists(l, dists, a, s, w)
  {
    assert |s + {a}| == |s| + 1;
    assert l == [] ==> Upto(n) == s + {a};
  }

  /** `ComputeMst`: the weight of a minimum spanning tree. */
  method ComputeMst(graph: Graph, numvert: nat, ghost verts: seq<Vertex>, ghost w: (nat, nat) -> nat) returns (cost: int)
    requires Weights(w) && DistinctVerts(verts) && AllHashed(verts, w)
    requires numvert == |verts| > 0 && IsList(graph.vlist, verts, Iota(numvert), Nexts(verts))
    requires forall i :: 0 <= i < numvert ==> verts[i].mindist == SENTINEL
    modifies graph, verts
    ensures IsMinimum(w, Upto(numvert), cost)
  {
    hide AllHashed, Nexts, MinDists, Weights, Growing, Dists, Spliced, Picked, IsList;
    cost := 0;
    ListTail(graph.vlist, verts, Iota(numvert), Nexts(verts));
    var inserted := graph.vlist;
    var tmp := inserted.next;
    graph.vlist := tmp;
    var myVertexList := tmp;
    var left: nat := numvert - 1;
    ghost var l: seq<nat>, a: nat, s: set<nat>, tree: seq<Edge> := Iota(numvert)[1..], 0, {}, [];
    StartsGrowing(numvert, w, MinDists(verts));
    while left != 0
      invariant Growing(numvert, w, l, MinDists(verts), a, s, tree, cost, left)
      invariant IsList(myVertexList, verts, l, Nexts(verts)) && AllHashed(verts, w)
      invariant a < |verts| && inserted == verts[a]
      decreases left
    {
      ghost var dists := MinDists(verts);
      StillOut(numvert, w, l, dists, a, s, tree, cost, left);
      ListHead(myVertexList, verts, l, Nexts(verts));
      if inserted == myVertexList {
        DropFirst(numvert, w, l, dists, a, s, tree, cost, left);
        ListTail(myVertexList, verts, l, Nexts(verts));
        myVertexList := myVertexList.next;
        l := l[1..];
        StillOut(numvert, w, l, dists, a, s, tree, cost, left);
        ListHead(myVertexList, verts, l, Nexts(verts));
      }
      ghost var q := PlaceOf(l, a, numvert);
      ghost var m;
      var vert, dist;
      vert, dist, m := BlueRule(inserted, myVertexList, verts, w, l, q, a, s);
      tree := KeepsGrowing(numvert, w, l, dists, a, s, tree, cost, left, q, MinDists(verts), m, dist);
      s, a, l := s + {a}, l[m], Spliced(l, q);
      inserted := vert;
      left := left - 1;
      cost := cost + dist;
    }
    GrownIsMinimum(numvert, w, l, MinDists(verts), a, s, tree, cost);
  }
}
