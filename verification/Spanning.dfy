/**
 Spanning trees of a complete graph with weights, and why adding the nearest vertex again and
 again gives a minimum one (`olden_mst/src/main.c`).  Connectivity is by cuts: every proper
 part of the vertices is left by some edge.  `ConnectedIffPaths` relates this to paths.
 */
module Spanning {
  type Edge = (nat, nat)

  /** The edge has exactly one end in `x`. */
  ghost predicate Crosses(e: Edge, x: set<nat>) {
    e.0 in x <==> e.1 !in x
  }

  ghost predicate CrossedBy(t: seq<Edge>, x: set<nat>) {
    exists i :: 0 <= i < |t| && Crosses(t[i], x)
  }

  ghost predicate Over(t: seq<Edge>, v: set<nat>) {
    forall i :: 0 <= i < |t| ==> t[i].0 in v && t[i].1 in v
  }

  /** `t` is a list of edges that connects all of `v`. */
  ghost predicate Connected(t: seq<Edge>, v: set<nat>) {
    Over(t, v) && forall x :: x != {} && x < v ==> CrossedBy(t, x)
  }

  /** A spanning tree: connected with one edge less than there are vertices. */
  ghost predicate SpanningTree(t: seq<Edge>, v: set<nat>) {
    Connected(t, v) && |t| == |v| - 1
  }

  function Weight(w: (nat, nat) -> nat, t: seq<Edge>): nat {
    if t == [] then 0 else Weight(w, t[..|t| - 1]) + w(t[|t| - 1].0, t[|t| - 1].1)
  }

  ghost predicate Symmetric(w: (nat, nat) -> nat) {
    forall a, b :: w(a, b) == w(b, a)
  }

  /** Every part of the vertices outside `s` is left by an edge of `t`. */
  ghost predicate ConnectsTo(t: seq<Edge>, s: set<nat>, v: set<nat>) {
    Over(t, v) && forall x :: x != {} && x <= v - s ==> CrossedBy(t, x)
  }

  lemma ConnectedConnectsTo(t: seq<Edge>, s: set<nat>, v: set<nat>)
    requires Connected(t, v) && s <= v && s != {}
    ensures ConnectsTo(t, s, v)
  {
    forall x | x != {} && x <= v - s ensures CrossedBy(t, x) {
      var a :| a in s;
      assert a in v && a !in x;
    }
  }

  // ---------- taking one edge away ----------

  /** No edge leads from `c` to the rest of `free`. */
  ghost predicate Closed(t: seq<Edge>, c: set<nat>, free: set<nat>) {
    forall i :: 0 <= i < |t| && t[i].0 in free && t[i].1 in free ==> (t[i].0 in c <==> t[i].1 in c)
  }

  ghost predicate ClosedWith(t: seq<Edge>, c: set<nat>, free: set<nat>, u: nat) {
    u in c && c <= free && Closed(t, c, free)
  }

  /** Among the closed sets that hold `u` there is a least one below each. */
  lemma {:induction false} LeastClosed(t: seq<Edge>, c: set<nat>, free: set<nat>, u: nat) returns (m: set<nat>)
    requires ClosedWith(t, c, free, u)
    ensures ClosedWith(t, m, free, u) && forall d :: d < m ==> !ClosedWith(t, d, free, u)
    decreases |c|
  {
    if d :| d < c && ClosedWith(t, d, free, u) {
      SmallerSet(d, c);
      m := LeastClosed(t, d, free, u);
    } else {
      m := c;
    }
  }

  lemma SmallerSet(a: set<nat>, b: set<nat>)
    requires a < b
    ensures |a| < |b|
  {
    var x :| x in b && x !in a;
    assert a <= b - {x};
    SubsetSize(a, b - {x});
  }

  lemma {:induction false} SubsetSize(a: set<nat>, b: set<nat>)
    requires a <= b
    ensures |a| <= |b|
    decreases a
  {
    if a != {} {
      var x :| x in a;
      SubsetSize(a - {x}, b - {x});
    }
  }

  function Without(t: seq<Edge>, i: nat): seq<Edge>
    requires i < |t|
  {
    t[..i] + t[i + 1..]
  }

  lemma {:induction false} WeightWithout(w: (nat, nat) -> nat, t: seq<Edge>, i: nat)
    requires i < |t|
    ensures Weight(w, t) == Weight(w, Without(t, i)) + w(t[i].0, t[i].1)
    decreases |t|
  {
    var r, n := Without(t, i), |t| - 1;
    if i == n {
      assert r == t[..n];
    } else {
      WeightWithout(w, t[..n], i);
      assert r[..n - 1] == Without(t[..n], i);
      assert r[n - 1] == t[n];
    }
  }

  /**
   If `t` connects everything to `s`, then one of its edges into `s` can be given up once `u` has joined `s`.
   */
  lemma DropEdge(t: seq<Edge>, s: set<nat>, v: set<nat>, u: nat) returns (i: nat)
    requires ConnectsTo(t, s, v) && s <= v && u in v - s
    ensures i < |t| && (t[i].0 in s <==> t[i].1 !in s)
    ensures ConnectsTo(Without(t, i), s + {u}, v)
  {
    var free := v - s;
    var c := LeastClosed(t, free, free, u);
    assert CrossedBy(t, c);
    i :| 0 <= i < |t| && Crosses(t[i], c);
    var r := Without(t, i);
    forall x | x != {} && x <= v - (s + {u}) ensures CrossedBy(r, x) {
      assert x <= free;
      var e := CrossingLeft(t, s, v, u, c, i, x);
      assert if e < i then r[e] == t[e] else r[e - 1] == t[e];
    }
  }

  /** The crossing edge that is left for `x` when edge `i` out of the least closed set `c` is gone. */
  lemma CrossingLeft(t: seq<Edge>, s: set<nat>, v: set<nat>, u: nat, c: set<nat>, i: nat, x: set<nat>) returns (e: nat)
    requires ConnectsTo(t, s, v) && s <= v && u in v - s
    requires ClosedWith(t, c, v - s, u) && forall d :: d < c ==> !ClosedWith(t, d, v - s, u)
    requires i < |t| && Crosses(t[i], c) && x != {} && x <= v - s && u !in x
    ensures e < |t| && e != i && Crosses(t[e], x)
  {
    if Crosses(t[i], x) {
      var d := c - x;
      assert d < c;
      assert u in d && !Closed(t, d, v - s);
      e :| 0 <= e < |t| && t[e].0 in v - s && t[e].1 in v - s && !(t[e].0 in d <==> t[e].1 in d);
    } else {
      assert CrossedBy(t, x);
      e :| 0 <= e < |t| && Crosses(t[e], x);
    }
  }

  // ---------- growing a tree from the nearest vertex ----------

  /** `d` is the least weight between `a` and a vertex of `s`; while there is none it is `sentinel`. */
  ghost predicate Nearest(w: (nat, nat) -> nat, s: set<nat>, a: nat, d: int, sentinel: int) {
    if s == {} then d == sentinel
    else (forall b :: b in s ==> d <= w(b, a)) && exists b :: b in s && d == w(b, a)
  }

  /** What edges are still needed after spending `cost` on connecting `s`: no more than `t` has. */
  ghost predicate NotAbove(w: (nat, nat) -> nat, t: seq<Edge>, s: set<nat>, v: set<nat>, cost: int) {
    exists r :: ConnectsTo(r, s, v) && cost + Weight(w, r) <= Weight(w, t)
  }

  /** Whatever connecting edges one compares with, adding the nearest of all vertices never costs more. */
  lemma NearestNotAbove(w: (nat, nat) -> nat, t: seq<Edge>, s: set<nat>, v: set<nat>, cost: int, u: nat, d: int, big: int)
    requires Symmetric(w) && NotAbove(w, t, s, v, cost) && s <= v && s != {} && u in v - s
    requires Nearest(w, s, u, d, big)
    requires forall a, b :: a in v - s && b in s ==> d <= w(b, a)
    ensures NotAbove(w, t, s + {u}, v, cost + d)
  {
    var r: seq<Edge> :| ConnectsTo(r, s, v) && cost + Weight(w, r) <= Weight(w, t);
    var i := DropEdge(r, s, v, u);
    WeightWithout(w, r, i);
    assert r[i].0 in v && r[i].1 in v;
    assert w(r[i].0, r[i].1) == w(r[i].1, r[i].0) >= d;
    assert ConnectsTo(Without(r, i), s + {u}, v);
  }

  /** One more vertex on one more edge keeps a tree. */
  lemma TreeGrows(t: seq<Edge>, s: set<nat>, b: nat, u: nat)
    requires SpanningTree(t, s) && b in s && u !in s
    ensures SpanningTree(t + [(b, u)], s + {u})
  {
    var r, s' := t + [(b, u)], s + {u};
    assert Over(r, s');
    forall x | x != {} && x < s' ensures CrossedBy(r, x) {
      if x * s != {} && x * s != s {
        assert x * s < s;
        var i :| 0 <= i < |t| && Crosses(t[i], x * s);
        assert r[i] == t[i] && t[i].0 in s && t[i].1 in s;
        assert Crosses(r[i], x);
      } else {
        assert (x * s == {} ==> u in x) && (x * s == s ==> u !in x && b in x);
        assert r[|t|] == (b, u);
        assert Crosses(r[|t|], x);
      }
    }
  }

  lemma WeightGrows(w: (nat, nat) -> nat, t: seq<Edge>, e: Edge)
    ensures Weight(w, t + [e]) == Weight(w, t) + w(e.0, e.1)
  {
    assert (t + [e])[..|t|] == t;
  }

  /** A minimum spanning tree has weight `cost`. */
  ghost predicate IsMinimum(w: (nat, nat) -> nat, v: set<nat>, cost: int) {
    && (exists t :: SpanningTree(t, v) && Weight(w, t) == cost)
    && (forall t :: Connected(t, v) ==> cost <= Weight(w, t))
  }

  // ---------- connectivity by paths ----------

  ghost predicate Joined(t: seq<Edge>, a: nat, b: nat) {
    exists i :: 0 <= i < |t| && (t[i] == (a, b) || t[i] == (b, a))
  }

  ghost predicate IsPath(t: seq<Edge>, p: seq<nat>, a: nat, b: nat) {
    |p| > 0 && p[0] == a && p[|p| - 1] == b && forall k :: 0 <= k < |p| - 1 ==> Joined(t, p[k], p[k + 1])
  }

  ghost predicate Linked(t: seq<Edge>, a: nat, b: nat) {
    exists p :: IsPath(t, p, a, b)
  }

  lemma {:induction false} PathLeaves(t: seq<Edge>, p: seq<nat>, a: nat, b: nat, x: set<nat>)
    requires IsPath(t, p, a, b) && a in x && b !in x
    ensures CrossedBy(t, x)
    decreases |p|
  {
    assert Joined(t, p[0], p[1]);
    if p[1] in x {
      var q := p[1..];
      forall k | 0 <= k < |q| - 1 ensures Joined(t, q[k], q[k + 1]) {
        assert Joined(t, p[k + 1], p[k + 2]);
      }
      PathLeaves(t, q, p[1], b, x);
    } else {
      var i :| 0 <= i < |t| && (t[i] == (p[0], p[1]) || t[i] == (p[1], p[0]));
      assert Crosses(t[i], x);
    }
  }

  lemma PathExtends(t: seq<Edge>, a: nat, b: nat, c: nat)
    requires Linked(t, a, b) && Joined(t, b, c)
    ensures Linked(t, a, c)
  {
    var p :| IsPath(t, p, a, b);
    var q := p + [c];
    forall k | 0 <= k < |q| - 1 ensures Joined(t, q[k], q[k + 1]) {
      if k < |p| - 1 {
        assert Joined(t, p[k], p[k + 1]);
      }
    }
    assert IsPath(t, q, a, c);
  }

  /** Edges connect `v` by cuts exactly if there is a path between any two vertices. */
  lemma ConnectedIffPaths(t: seq<Edge>, v: set<nat>)
    requires Over(t, v)
    ensures Connected(t, v) <==> forall a, b :: a in v && b in v ==> Linked(t, a, b)
  {
    if Connected(t, v) {
      forall a, b | a in v && b in v ensures Linked(t, a, b) {
        assert IsPath(t, [a], a, a);
        var r := set c | c in v && Linked(t, a, c);
        assert a in r;
        if r < v {
          assert CrossedBy(t, r);
          var i :| 0 <= i < |t| && Crosses(t[i], r);
          assert Joined(t, t[i].0, t[i].1) && Joined(t, t[i].1, t[i].0);
          assert t[i].0 in v && t[i].1 in v;
          if t[i].0 in r {
            PathExtends(t, a, t[i].0, t[i].1);
          } else {
            assert t[i].1 in r;
            PathExtends(t, a, t[i].1, t[i].0);
          }
          assert false;
        }
        assert r == v;
      }
    }
    if forall a, b :: a in v && b in v ==> Linked(t, a, b) {
      forall x | x != {} && x < v ensures CrossedBy(t, x) {
        var a :| a in x;
        var b :| b in v && b !in x;
        assert Linked(t, a, b);
        var p :| IsPath(t, p, a, b);
        PathLeaves(t, p, a, b, x);
      }
    }
  }
}
