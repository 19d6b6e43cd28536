/**
 Shortest paths by label correction, on values: the labels and the queue of
 `dijkstra/src/main.c`, what every step of the search keeps, and what holds at its end.
 */
module Labels {
  import opened Pigeonhole

  const NONE: nat := 9999

  datatype Node = Node(iDist: nat, iPrev: nat)
  datatype Item = Item(iNode: nat, iDist: nat, iPrev: nat)

  // ---------- walks ----------

  ghost predicate Matrix(adj: seq<seq<nat>>) {
    forall u :: 0 <= u < |adj| ==> |adj[u]| == |adj|
  }

  /** Weights are at most `m`, and neither `(n - 1) * m` nor a node number reaches the sentinel. */
  ghost predicate Bounded(adj: seq<seq<nat>>, m: nat) {
    && Matrix(adj) && 0 < |adj| <= NONE && (|adj| - 1) * m < NONE
    && forall u, v :: 0 <= u < |adj| && 0 <= v < |adj| && adj[u][v] != NONE ==> adj[u][v] <= m
  }

  ghost predicate Edge(adj: seq<seq<nat>>, u: nat, v: nat)
    requires Matrix(adj)
  {
    u < |adj| && v < |adj| && adj[u][v] != NONE
  }

  ghost predicate Walk(adj: seq<seq<nat>>, p: seq<nat>)
    requires Matrix(adj)
  {
    |p| > 0 && p[0] < |adj| && (|p| > 1 ==> Walk(adj, p[..|p| - 1]) && Edge(adj, p[|p| - 2], p[|p| - 1]))
  }

  ghost function Length(adj: seq<seq<nat>>, p: seq<nat>): nat
    requires Matrix(adj) && Walk(adj, p)
  {
    if |p| == 1 then 0 else Length(adj, p[..|p| - 1]) + adj[p[|p| - 2]][p[|p| - 1]]
  }

  ghost predicate WalkTo(adj: seq<seq<nat>>, p: seq<nat>, s: nat, v: nat, d: nat)
    requires Matrix(adj)
  {
    Walk(adj, p) && p[0] == s && p[|p| - 1] == v && Length(adj, p) == d
  }

  ghost predicate Reaches(adj: seq<seq<nat>>, s: nat, v: nat, d: nat)
    requires Matrix(adj)
  {
    exists p :: WalkTo(adj, p, s, v, d)
  }

  /** `d` is the length of a shortest walk from `s` to `v`. */
  ghost predicate IsShortest(adj: seq<seq<nat>>, s: nat, v: nat, d: nat)
    requires Matrix(adj)
  {
    Reaches(adj, s, v, d) && forall e :: Reaches(adj, s, v, e) ==> d <= e
  }

  ghost predicate Unreachable(adj: seq<seq<nat>>, s: nat, v: nat)
    requires Matrix(adj)
  {
    forall e :: !Reaches(adj, s, v, e)
  }

  lemma Extend(adj: seq<seq<nat>>, p: seq<nat>, s: nat, u: nat, d: nat, v: nat)
    requires Matrix(adj) && WalkTo(adj, p, s, u, d) && Edge(adj, u, v)
    ensures WalkTo(adj, p + [v], s, v, d + adj[u][v])
  {
    assert (p + [v])[..|p|] == p;
  }

  lemma {:induction false} WalkPrefix(adj: seq<seq<nat>>, p: seq<nat>, k: nat)
    requires Matrix(adj) && Walk(adj, p) && 0 < k <= |p|
    ensures Walk(adj, p[..k]) && Length(adj, p[..k]) <= Length(adj, p) && p[k - 1] < |adj|
    decreases |p|
  {
    if k < |p| {
      WalkPrefix(adj, p[..|p| - 1], k);
      assert p[..|p| - 1][..k] == p[..k];
    } else {
      assert p[..k] == p;
    }
  }

  lemma {:induction false} LengthBounded(adj: seq<seq<nat>>, p: seq<nat>, m: nat)
    requires Bounded(adj, m) && Walk(adj, p)
    ensures Length(adj, p) <= (|p| - 1) * m
  {
    if |p| > 1 {
      LengthBounded(adj, p[..|p| - 1], m);
      assert adj[p[|p| - 2]][p[|p| - 1]] <= m;
      assert (|p| - 2) * m + m == (|p| - 1) * m;
    }
  }

  /** So a simple walk is shorter than the sentinel. */
  lemma SimpleBelowNone(adj: seq<seq<nat>>, p: seq<nat>, m: nat)
    requires Bounded(adj, m) && Walk(adj, p) && AllDistinct(p)
    ensures Length(adj, p) < NONE
  {
    forall i | 0 <= i < |p| ensures p[i] < |adj| {
      WalkPrefix(adj, p, i + 1);
    }
    DistinctFit(p, |adj|);
    LengthBounded(adj, p, m);
    if p != [] { TimesMonotone(|p| - 1, |adj| - 1, m); }
  }

  lemma TimesMonotone(x: nat, y: nat, m: nat)
    requires x <= y
    ensures x * m <= y * m
  {
  }

  // ---------- labels ----------

  ghost predicate Reached(nodes: seq<Node>, v: nat) {
    v < |nodes| && nodes[v].iDist != NONE
  }

  /** Every label is the length of a walk; the start has label 0 and no predecessor. */
  ghost predicate Sound(adj: seq<seq<nat>>, s: nat, nodes: seq<Node>) {
    && Matrix(adj) && s < |nodes| == |adj| && nodes[s] == Node(0, NONE)
    && forall v :: 0 <= v < |nodes| && nodes[v].iDist != NONE ==> nodes[v].iDist < NONE && Reaches(adj, s, v, nodes[v].iDist)
  }

  /** No node on the walk has a label above its distance along the walk. */
  ghost predicate Under(adj: seq<seq<nat>>, p: seq<nat>, nodes: seq<Node>)
    requires Matrix(adj) && Walk(adj, p)
  {
    forall k :: 0 < k <= |p| ==> UnderAt(adj, p, nodes, k)
  }

  ghost predicate UnderAt(adj: seq<seq<nat>>, p: seq<nat>, nodes: seq<Node>, k: nat)
    requires Matrix(adj) && Walk(adj, p) && 0 < k <= |p|
  {
    WalkPrefix(adj, p, k);
    Reached(nodes, p[k - 1]) && nodes[p[k - 1]].iDist <= Length(adj, p[..k])
  }

  /** A queued item stands for a simple walk along which no label is larger. */
  ghost predicate Backed(adj: seq<seq<nat>>, s: nat, nodes: seq<Node>, x: Item, p: seq<nat>)
    requires Matrix(adj)
  {
    WalkTo(adj, p, s, x.iNode, x.iDist) && AllDistinct(p) && Under(adj, p, nodes)
  }

  ghost predicate AllBacked(adj: seq<seq<nat>>, s: nat, nodes: seq<Node>, queue: seq<Item>, paths: seq<seq<nat>>)
    requires Matrix(adj)
  {
    |paths| == |queue| && forall k :: 0 <= k < |queue| ==> Backed(adj, s, nodes, queue[k], paths[k])
  }

  /** The edges of `v` to the nodes below `i` have been relaxed. */
  ghost predicate Settled(adj: seq<seq<nat>>, nodes: seq<Node>, v: nat, i: nat)
    requires Matrix(adj) && |nodes| == |adj| && v < |adj|
  {
    forall j :: 0 <= j < i && j < |adj| && adj[v][j] != NONE ==>
      nodes[j].iDist != NONE && nodes[j].iDist <= nodes[v].iDist + adj[v][j]
  }

  ghost predicate Queued(nodes: seq<Node>, queue: seq<Item>, v: nat)
    requires v < |nodes|
  {
    exists k :: 0 <= k < |queue| && queue[k].iNode == v && queue[k].iDist == nodes[v].iDist
  }

  /** Node `v` needs no attention: it is out of reach, waits in the queue, or has its edges relaxed. */
  ghost predicate Attended(adj: seq<seq<nat>>, nodes: seq<Node>, queue: seq<Item>, v: nat)
    requires Matrix(adj) && |nodes| == |adj| && v < |adj|
  {
    nodes[v].iDist == NONE || Queued(nodes, queue, v) || Settled(adj, nodes, v, |adj|)
  }

  /** The predecessor comes before: by its label, or with the same label by the time it got it. */
  ghost predicate Before(nodes: seq<Node>, stamps: seq<nat>, p: nat, v: nat)
    requires p < |nodes| == |stamps| && v < |nodes|
  {
    nodes[p].iDist < nodes[v].iDist || (nodes[p].iDist == nodes[v].iDist && stamps[p] < stamps[v])
  }

  ghost predicate LinkOk(adj: seq<seq<nat>>, s: nat, nodes: seq<Node>, stamps: seq<nat>, v: nat)
    requires Matrix(adj) && |nodes| == |adj| == |stamps| && v < |adj|
  {
    if nodes[v].iDist == NONE then nodes[v].iPrev == NONE
    else v != s ==>
      var p := nodes[v].iPrev;
      && Edge(adj, p, v) && Reached(nodes, p) && nodes[p].iDist + adj[p][v] <= nodes[v].iDist && Before(nodes, stamps, p, v)
  }

  ghost predicate LinksOk(adj: seq<seq<nat>>, s: nat, nodes: seq<Node>, stamps: seq<nat>, clock: nat)
    requires Matrix(adj) && |nodes| == |adj|
  {
    && |stamps| == |adj| && (forall v :: 0 <= v < |adj| ==> stamps[v] < clock)
    && forall v :: 0 <= v < |adj| ==> LinkOk(adj, s, nodes, stamps, v)
  }

  /** What holds between two items. */
  ghost predicate Search(adj: seq<seq<nat>>, s: nat, nodes: seq<Node>, queue: seq<Item>, paths: seq<seq<nat>>,
                         stamps: seq<nat>, clock: nat)
  {
    && Sound(adj, s, nodes) && AllBacked(adj, s, nodes, queue, paths) && LinksOk(adj, s, nodes, stamps, clock)
    && forall v :: 0 <= v < |adj| ==> Attended(adj, nodes, queue, v)
  }

  /** What holds while the edges of the item `x` to the nodes from `i` on are still to be relaxed. */
  ghost predicate Scanning(adj: seq<seq<nat>>, s: nat, nodes: seq<Node>, queue: seq<Item>, paths: seq<seq<nat>>,
                           stamps: seq<nat>, clock: nat, x: Item, path: seq<nat>, i: nat)
  {
    && Sound(adj, s, nodes) && AllBacked(adj, s, nodes, queue, paths) && LinksOk(adj, s, nodes, stamps, clock)
    && x.iNode < |adj| && Backed(adj, s, nodes, x, path)
    && forall v :: 0 <= v < |adj| ==>
         Attended(adj, nodes, queue, v) || (v == x.iNode && nodes[v].iDist == x.iDist && Settled(adj, nodes, v, i))
  }

  // ---------- the start ----------

  lemma SearchStarts(adj: seq<seq<nat>>, s: nat, nodes: seq<Node>)
    requires Matrix(adj) && s < |adj| == |nodes|
    requires forall v :: 0 <= v < |adj| ==> nodes[v] == if v == s then Node(0, NONE) else Node(NONE, NONE)
    ensures Search(adj, s, nodes, [Item(s, 0, NONE)], [[s]], seq(|adj|, _ => 0), 1)
  {
    var q := [Item(s, 0, NONE)];
    assert WalkTo(adj, [s], s, s, 0);
    assert Under(adj, [s], nodes) by {
      assert [s][..1] == [s];
      assert UnderAt(adj, [s], nodes, 1);
    }
    assert Queued(nodes, q, s) by {
      assert q[0].iNode == s && q[0].iDist == nodes[s].iDist;
    }
  }

  // ---------- taking an item, and passing over an edge ----------

  lemma Taken(adj: seq<seq<nat>>, s: nat, nodes: seq<Node>, queue: seq<Item>, paths: seq<seq<nat>>, stamps: seq<nat>, clock: nat)
    requires Search(adj, s, nodes, queue, paths, stamps, clock) && queue != []
    ensures Scanning(adj, s, nodes, queue[1..], paths[1..], stamps, clock, queue[0], paths[0], 0)
  {
    var x, rest := queue[0], queue[1..];
    assert Backed(adj, s, nodes, x, paths[0]);
    WalkPrefix(adj, paths[0], |paths[0]|);
    forall v | 0 <= v < |adj|
      ensures Attended(adj, nodes, rest, v) || (v == x.iNode && nodes[v].iDist == x.iDist && Settled(adj, nodes, v, 0))
    {
      assert Attended(adj, nodes, queue, v);
      if nodes[v].iDist != NONE && !Settled(adj, nodes, v, |adj|) {
        var k :| 0 <= k < |queue| && queue[k].iNode == v && queue[k].iDist == nodes[v].iDist;
        assert k > 0 ==> rest[k - 1] == queue[k];
      }
    }
    forall k | 0 <= k < |rest| ensures Backed(adj, s, nodes, rest[k], paths[1..][k]) {
      assert Backed(adj, s, nodes, queue[k + 1], paths[k + 1]);
    }
  }

  lemma TakenNode(adj: seq<seq<nat>>, s: nat, nodes: seq<Node>, queue: seq<Item>, paths: seq<seq<nat>>, stamps: seq<nat>,
                  clock: nat)
    requires Search(adj, s, nodes, queue, paths, stamps, clock) && queue != []
    ensures queue[0].iNode < |adj| && |paths| == |queue|
  {
    assert Backed(adj, s, nodes, queue[0], paths[0]);
    WalkPrefix(adj, paths[0], |paths[0]|);
  }

  lemma Finished(adj: seq<seq<nat>>, s: nat, nodes: seq<Node>, queue: seq<Item>, paths: seq<seq<nat>>, stamps: seq<nat>,
                 clock: nat, x: Item, path: seq<nat>)
    requires Scanning(adj, s, nodes, queue, paths, stamps, clock, x, path, |adj|)
    ensures Search(adj, s, nodes, queue, paths, stamps, clock)
  {
  }

  /** The edge to `i` is missing, or no shorter. */
  predicate PassedOver(nodes: seq<Node>, i: nat, cost: nat, d: nat)
    requires i < |nodes|
  {
    cost == NONE || !(nodes[i].iDist == NONE || nodes[i].iDist > cost + d)
  }

  lemma Passed(adj: seq<seq<nat>>, s: nat, nodes: seq<Node>, queue: seq<Item>, paths: seq<seq<nat>>, stamps: seq<nat>,
               clock: nat, x: Item, path: seq<nat>, i: nat)
    requires Scanning(adj, s, nodes, queue, paths, stamps, clock, x, path, i) && i < |adj|
    requires PassedOver(nodes, i, adj[x.iNode][i], x.iDist)
    ensures Scanning(adj, s, nodes, queue, paths, stamps, clock, x, path, i + 1)
  {
  }

  // ---------- relaxing an edge ----------

  /** Labels only get smaller. */
  ghost predicate Dropped(nodes: seq<Node>, nodes': seq<Node>) {
    |nodes'| == |nodes| && forall v: nat :: Reached(nodes, v) ==> Reached(nodes', v) && nodes'[v].iDist <= nodes[v].iDist
  }

  lemma BackedKept(adj: seq<seq<nat>>, s: nat, nodes: seq<Node>, nodes': seq<Node>, x: Item, p: seq<nat>)
    requires Matrix(adj) && Backed(adj, s, nodes, x, p) && Dropped(nodes, nodes')
    ensures Backed(adj, s, nodes', x, p)
  {
    forall k | 0 < k <= |p| ensures UnderAt(adj, p, nodes', k) {
      assert UnderAt(adj, p, nodes, k);
    }
  }

  /** An item that improves a label stands for a longer simple walk. */
  lemma NewBacked(adj: seq<seq<nat>>, s: nat, nodes: seq<Node>, x: Item, p: seq<nat>, i: nat, m: nat)
    requires Bounded(adj, m) && |nodes| == |adj| && i < |adj| && Backed(adj, s, nodes, x, p) && x.iNode < |adj|
    requires adj[x.iNode][i] != NONE && !PassedOver(nodes, i, adj[x.iNode][i], x.iDist)
    ensures i != x.iNode && i != s
    ensures var d := x.iDist + adj[x.iNode][i];
      d < NONE && Backed(adj, s, nodes[i := Node(d, x.iNode)], Item(i, d, x.iNode), p + [i])
  {
    var d := x.iDist + adj[x.iNode][i];
    var q, nodes' := p + [i], nodes[i := Node(d, x.iNode)];
    forall k | 0 <= k < |p| ensures p[k] != i {
      assert UnderAt(adj, p, nodes, k + 1);
      WalkPrefix(adj, p, k + 1);
    }
    assert p[0] == s && p[|p| - 1] == x.iNode;
    assert AllDistinct(q);
    Extend(adj, p, s, x.iNode, x.iDist, i);
    SimpleBelowNone(adj, q, m);
    forall k | 0 < k <= |q| ensures UnderAt(adj, q, nodes', k) {
      if k <= |p| {
        assert UnderAt(adj, p, nodes, k);
        assert q[..k] == p[..k];
      } else {
        assert q[..k] == q;
      }
    }
  }

  lemma LinksKept(adj: seq<seq<nat>>, s: nat, nodes: seq<Node>, stamps: seq<nat>, clock: nat, u: nat, i: nat, d: nat)
    requires Matrix(adj) && |nodes| == |adj| && LinksOk(adj, s, nodes, stamps, clock)
    requires Reached(nodes, u) && Edge(adj, u, i) && u != i && nodes[u].iDist + adj[u][i] <= d < NONE && d < nodes[i].iDist
    ensures LinksOk(adj, s, nodes[i := Node(d, u)], stamps[i := clock], clock + 1)
  {
    var nodes', stamps' := nodes[i := Node(d, u)], stamps[i := clock];
    forall v | 0 <= v < |adj| ensures LinkOk(adj, s, nodes', stamps', v) {
      assert LinkOk(adj, s, nodes, stamps, v);
    }
  }

  lemma AttendedKept(adj: seq<seq<nat>>, nodes: seq<Node>, queue: seq<Item>, u: nat, i: nat, d: nat, v: nat)
    requires Matrix(adj) && |nodes| == |adj| && v < |adj| && i < |adj| && d < nodes[i].iDist && d < NONE
    requires Attended(adj, nodes, queue, v)
    ensures Attended(adj, nodes[i := Node(d, u)], queue + [Item(i, d, u)], v)
  {
    var nodes', queue' := nodes[i := Node(d, u)], queue + [Item(i, d, u)];
    if v == i {
      assert queue'[|queue|] == Item(i, d, u);
      assert Queued(nodes', queue', v);
    } else if Queued(nodes, queue, v) {
      var k :| 0 <= k < |queue| && queue[k].iNode == v && queue[k].iDist == nodes[v].iDist;
      assert queue'[k] == queue[k];
      assert Queued(nodes', queue', v);
    }
  }

  lemma SoundKept(adj: seq<seq<nat>>, s: nat, nodes: seq<Node>, u: nat, i: nat, d: nat, q: seq<nat>)
    requires Sound(adj, s, nodes) && i < |adj| && i != s && d < NONE && WalkTo(adj, q, s, i, d)
    ensures Sound(adj, s, nodes[i := Node(d, u)])
  {
    assert Reaches(adj, s, i, d);
  }

  /** The backing of the queued items survives a drop of labels, and one backed item more joins them. */
  lemma QueueGrows(adj: seq<seq<nat>>, s: nat, nodes: seq<Node>, nodes': seq<Node>, queue: seq<Item>, paths: seq<seq<nat>>,
                   x: Item, p: seq<nat>)
    requires Matrix(adj) && AllBacked(adj, s, nodes, queue, paths) && Dropped(nodes, nodes') && Backed(adj, s, nodes', x, p)
    ensures AllBacked(adj, s, nodes', queue + [x], paths + [p])
  {
    hide Dropped;
    forall k | 0 <= k < |queue| + 1 ensures Backed(adj, s, nodes', (queue + [x])[k], (paths + [p])[k]) {
      if k < |queue| {
        BackedKept(adj, s, nodes, nodes', queue[k], paths[k]);
      }
    }
  }

  /** Relaxing an edge: the label drops, the node is queued again, and everything still holds. */
  lemma Improved(adj: seq<seq<nat>>, s: nat, nodes: seq<Node>, queue: seq<Item>, paths: seq<seq<nat>>, stamps: seq<nat>,
                 clock: nat, x: Item, path: seq<nat>, i: nat, m: nat)
    requires Bounded(adj, m) && Scanning(adj, s, nodes, queue, paths, stamps, clock, x, path, i) && i < |adj|
    requires !PassedOver(nodes, i, adj[x.iNode][i], x.iDist)
    ensures var d := x.iDist + adj[x.iNode][i];
      && d < NONE && d < nodes[i].iDist
      && Scanning(adj, s, nodes[i := Node(d, x.iNode)], queue + [Item(i, d, x.iNode)], paths + [path + [i]],
           stamps[i := clock], clock + 1, x, path, i + 1)
  {
    var u, d := x.iNode, x.iDist + adj[x.iNode][i];
    var nodes', queue', paths' := nodes[i := Node(d, u)], queue + [Item(i, d, u)], paths + [path + [i]];
    NewBacked(adj, s, nodes, x, path, i, m);
    assert UnderAt(adj, path, nodes, |path|);
    assert path[..|path|] == path;
    assert d < nodes[i].iDist;
    assert Dropped(nodes, nodes');
    SoundKept(adj, s, nodes, u, i, d, path + [i]);
    QueueGrows(adj, s, nodes, nodes', queue, paths, Item(i, d, u), path + [i]);
    BackedKept(adj, s, nodes, nodes', x, path);
    LinksKept(adj, s, nodes, stamps, clock, u, i, d);
    forall v | 0 <= v < |adj|
      ensures Attended(adj, nodes', queue', v)
        || (v == u && nodes'[v].iDist == x.iDist && Settled(adj, nodes', v, i + 1))
    {
      if Attended(adj, nodes, queue, v) {
        AttendedKept(adj, nodes, queue, u, i, d, v);
      }
    }
  }

  // ---------- the end ----------

  /** With the queue empty no walk beats a label. */
  lemma {:induction false} NoWalkShorter(adj: seq<seq<nat>>, s: nat, nodes: seq<Node>, paths: seq<seq<nat>>,
                                         stamps: seq<nat>, clock: nat, p: seq<nat>)
    requires Search(adj, s, nodes, [], paths, stamps, clock) && Walk(adj, p) && p[0] == s
    ensures p[|p| - 1] < |adj| && Reached(nodes, p[|p| - 1]) && nodes[p[|p| - 1]].iDist <= Length(adj, p)
    decreases |p|
  {
    if |p| > 1 {
      var u := p[|p| - 2];
      NoWalkShorter(adj, s, nodes, paths, stamps, clock, p[..|p| - 1]);
      assert Attended(adj, nodes, [], u);
      assert Settled(adj, nodes, u, |adj|);
    }
  }

  /** Labels are shortest distances; a node without label cannot be reached; each link lies on a shortest path. */
  ghost predicate Solved(adj: seq<seq<nat>>, s: nat, nodes: seq<Node>)
    requires Matrix(adj) && |nodes| == |adj|
  {
    && (forall v :: 0 <= v < |adj| && nodes[v].iDist != NONE ==> IsShortest(adj, s, v, nodes[v].iDist))
    && (forall v :: 0 <= v < |adj| && nodes[v].iDist == NONE ==> Unreachable(adj, s, v))
    && (forall v :: 0 <= v < |adj| ==> LinkExact(adj, s, nodes, v))
    && exists stamps :: Ranked(adj, s, nodes, stamps)
  }

  /** Predecessors come before, so following them ends. */
  ghost predicate Ranked(adj: seq<seq<nat>>, s: nat, nodes: seq<Node>, stamps: seq<nat>)
    requires Matrix(adj) && |nodes| == |adj|
  {
    && |stamps| == |adj|
    && forall v :: 0 <= v < |adj| && v != s && nodes[v].iDist != NONE && nodes[v].iPrev < |adj| ==>
         Before(nodes, stamps, nodes[v].iPrev, v)
  }

  ghost predicate LinkExact(adj: seq<seq<nat>>, s: nat, nodes: seq<Node>, v: nat)
    requires Matrix(adj) && |nodes| == |adj| && v < |adj|
  {
    if v == s then nodes[v] == Node(0, NONE)
    else if nodes[v].iDist == NONE then nodes[v].iPrev == NONE
    else
      var p := nodes[v].iPrev; Edge(adj, p, v) && Reached(nodes, p) && nodes[p].iDist + adj[p][v] == nodes[v].iDist
  }

  lemma SearchSolves(adj: seq<seq<nat>>, s: nat, nodes: seq<Node>, paths: seq<seq<nat>>, stamps: seq<nat>, clock: nat)
    requires Search(adj, s, nodes, [], paths, stamps, clock)
    ensures Solved(adj, s, nodes)
  {
    forall v, e | 0 <= v < |adj| && Reaches(adj, s, v, e) ensures nodes[v].iDist != NONE && nodes[v].iDist <= e {
      var p :| WalkTo(adj, p, s, v, e);
      NoWalkShorter(adj, s, nodes, paths, stamps, clock, p);
    }
    forall v | 0 <= v < |adj| ensures LinkExact(adj, s, nodes, v) {
      assert LinkOk(adj, s, nodes, stamps, v);
      if nodes[v].iDist != NONE && v != s {
        assert Attended(adj, nodes, [], nodes[v].iPrev);
      }
    }
    forall v | 0 <= v < |adj| && v != s && nodes[v].iDist != NONE && nodes[v].iPrev < |adj|
      ensures Before(nodes, stamps, nodes[v].iPrev, v)
    {
      assert LinkOk(adj, s, nodes, stamps, v);
    }
    assert Ranked(adj, s, nodes, stamps);
  }
}
