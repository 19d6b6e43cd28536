/**
 `dijkstra/src/main.c`: a search with a linked first-in first-out queue that corrects labels until
 no edge improves any.  `Search` is proved to end with the true shortest distances, and
 `PrintPath` to end and to print a shortest path.
 */
module Dijkstra {
  import opened Labels

  class QItem {
    const iNode: nat
    const iDist: nat
    const iPrev: nat
    var qNext: QItem?

    constructor (iNode: nat, iDist: nat, iPrev: nat)
      ensures this.iNode == iNode && this.iDist == iDist && this.iPrev == iPrev && qNext == null
    {
      this.iNode, this.iDist, this.iPrev, qNext := iNode, iDist, iPrev, null;
    }
  }

  ghost function ItemsOf(cells: seq<QItem>): (s: seq<Item>)
    ensures |s| == |cells|
    ensures forall k :: 0 <= k < |s| ==> s[k] == Item(cells[k].iNode, cells[k].iDist, cells[k].iPrev)
  {
    seq(|cells|, k requires 0 <= k < |cells| => Item(cells[k].iNode, cells[k].iDist, cells[k].iPrev))
  }

  class Router {
    const adj: seq<seq<nat>>
    const rgnNodes: array<Node>
    var qHead: QItem?
    var qCount: nat
    ghost var cells: seq<QItem>
    ghost var made: set<QItem>

    constructor (adj: seq<seq<nat>>)
      ensures QueueOk() && cells == [] && made == {} && this.adj == adj && rgnNodes.Length == |adj| && fresh(rgnNodes)
    {
      this.adj := adj;
      rgnNodes := new Node[|adj|](_ => Node(NONE, NONE));
      qHead, qCount, cells, made := null, 0, [], {};
    }

    /** The queue is the linked list of `cells`, all of them among the cells `made`. */
    ghost predicate QueueOk()
      reads this, made
    {
      && (forall k :: 0 <= k < |cells| ==> cells[k] in made)
      && qCount == |cells| && qHead == (if cells == [] then null else cells[0])
      && (forall i, j :: 0 <= i < j < |cells| ==> cells[i] != cells[j])
      && forall k {:trigger cells[k].qNext} :: 0 <= k < |cells| ==>
           cells[k].qNext == (if k + 1 < |cells| then cells[k + 1] else null)
    }

    /** `enqueue`. */
    method Enqueue(iNode: nat, iDist: nat, iPrev: nat)
      requires QueueOk()
      modifies this, cells
      ensures QueueOk() && ItemsOf(cells) == old(ItemsOf(cells)) + [Item(iNode, iDist, iPrev)]
      ensures fresh(made - old(made))
    {
      var qNew := new QItem(iNode, iDist, iPrev);
      var qLast := qHead;
      if qLast == null {
        qHead := qNew;
      } else {
        ghost var k: nat := 0;
        while qLast.qNext != null
          invariant k < |cells| && qLast == cells[k] && QueueOk()
          decreases |cells| - k
        {
          qLast := qLast.qNext;
          k := k + 1;
        }
        qLast.qNext := qNew;
      }
      cells, made := cells + [qNew], made + {qNew};
      qCount := qCount + 1;
    }

    /** `dequeue` on a queue that is not empty; on an empty one it does nothing, and it is never called then. */
    method Dequeue() returns (iNode: nat, iDist: nat, iPrev: nat)
      requires QueueOk() && cells != []
      modifies this
      ensures QueueOk() && cells == old(cells[1..]) && made == old(made)
      ensures Item(iNode, iDist, iPrev) == old(ItemsOf(cells))[0] && ItemsOf(cells) == old(ItemsOf(cells))[1..]
    {
      iNode, iDist, iPrev := qHead.iNode, qHead.iDist, qHead.iPrev;
      assert cells[0].qNext == if 1 < |cells| then cells[1] else null;
      qHead := qHead.qNext;
      qCount := qCount - 1;
      cells := cells[1..];
    }

    function Qcount(): nat
      reads this
    {
      qCount
    }

    /** The sum of all labels, which every relaxation lowers. */
    ghost function Total(nodes: seq<Node>): nat {
      if nodes == [] then 0 else Total(nodes[..|nodes| - 1]) + nodes[|nodes| - 1].iDist
    }

    lemma {:induction false} TotalDrops(nodes: seq<Node>, i: nat, x: Node)
      requires i < |nodes| && x.iDist < nodes[i].iDist
      ensures Total(nodes[i := x]) < Total(nodes)
      decreases |nodes|
    {
      var n := |nodes| - 1;
      if i < n {
        TotalDrops(nodes[..n], i, x);
        assert nodes[i := x][..n] == nodes[..n][i := x];
      } else {
        assert nodes[i := x][..n] == nodes[..n];
      }
    }

    /** One step of the inner loop of `dijkstra`: the edge to `i`. */
    method RelaxEdge(iNode: nat, iDist: nat, i: nat, ghost x: Item, ghost s: nat, ghost m: nat,
                     ghost paths0: seq<seq<nat>>, ghost stamps0: seq<nat>, ghost clock0: nat, ghost path: seq<nat>)
      returns (ghost paths: seq<seq<nat>>, ghost stamps: seq<nat>, ghost clock: nat)
      requires Bounded(adj, m) && rgnNodes.Length == |adj| && QueueOk() && iNode == x.iNode && iDist == x.iDist
      requires iNode < |adj| && i < |adj| && |stamps0| == |adj|
      requires Scanning(adj, s, rgnNodes[..], ItemsOf(cells), paths0, stamps0, clock0, x, path, i)
      modifies this, made, rgnNodes
      ensures QueueOk() && fresh(made - old(made)) && |stamps| == |adj|
      ensures Scanning(adj, s, rgnNodes[..], ItemsOf(cells), paths, stamps, clock, x, path, i + 1)
      ensures Total(rgnNodes[..]) < old(Total(rgnNodes[..])) || (rgnNodes[..] == old(rgnNodes[..]) && cells == old(cells))
    {
      hide Scanning, Total;
      paths, stamps, clock := paths0, stamps0, clock0;
      var iCost := adj[iNode][i];
      if iCost != NONE && (rgnNodes[i].iDist == NONE || rgnNodes[i].iDist > iCost + iDist) {
        Improved(adj, s, rgnNodes[..], ItemsOf(cells), paths, stamps, clock, x, path, i, m);
        TotalDrops(rgnNodes[..], i, Node(iDist + iCost, iNode));
        ghost var after := rgnNodes[..][i := Node(iDist + iCost, iNode)];
        rgnNodes[i] := Node(iDist + iCost, iNode);
        assert rgnNodes[..] == after && made == old(made);
        Enqueue(i, iDist + iCost, iNode);
        paths, stamps, clock := paths + [path + [i]], stamps[i := clock], clock + 1;
      } else {
        Passed(adj, s, rgnNodes[..], ItemsOf(cells), paths, stamps, clock, x, path, i);
      }
    }

    /** The inner loop of `dijkstra`: relax all edges of the node taken from the queue. */
    method RelaxAll(iNode: nat, iDist: nat, ghost x: Item, ghost s: nat, ghost m: nat,
                    ghost paths0: seq<seq<nat>>, ghost stamps0: seq<nat>, ghost clock0: nat, ghost path: seq<nat>)
      returns (ghost paths: seq<seq<nat>>, ghost stamps: seq<nat>, ghost clock: nat)
      requires Bounded(adj, m) && rgnNodes.Length == |adj| && QueueOk() && iNode == x.iNode && iDist == x.iDist
      requires iNode < |adj| && |stamps0| == |adj|
      requires Scanning(adj, s, rgnNodes[..], ItemsOf(cells), paths0, stamps0, clock0, x, path, 0)
      modifies this, made, rgnNodes
      ensures QueueOk() && fresh(made - old(made)) && |stamps| == |adj|
      ensures Labels.Search(adj, s, rgnNodes[..], ItemsOf(cells), paths, stamps, clock)
      ensures Total(rgnNodes[..]) < old(Total(rgnNodes[..])) || (rgnNodes[..] == old(rgnNodes[..]) && cells == old(cells))
    {
      hide Scanning, Labels.Search, Total, QueueOk, Bounded, ItemsOf;
      paths, stamps, clock := paths0, stamps0, clock0;
      var i := 0;
      while i < rgnNodes.Length
        invariant i <= rgnNodes.Length && |stamps| == |adj|
        invariant QueueOk() && fresh(made - old(made))
        invariant Scanning(adj, s, rgnNodes[..], ItemsOf(cells), paths, stamps, clock, x, path, i)
        invariant Total(rgnNodes[..]) < old(Total(rgnNodes[..])) || (rgnNodes[..] == old(rgnNodes[..]) && cells == old(cells))
      {
        paths, stamps, clock := RelaxEdge(iNode, iDist, i, x, s, m, paths, stamps, clock, path);
        i := i + 1;
      }
      Finished(adj, s, rgnNodes[..], ItemsOf(cells), paths, stamps, clock, x, path);
    }

    /** `dijkstra`. */
    method Dijkstra(chStart: nat, chEnd: nat, ghost m: nat)
      requires Bounded(adj, m) && rgnNodes.Length == |adj| && chStart < |adj| && chEnd < |adj|
      requires QueueOk() && cells == []
      modifies this, made, rgnNodes
      ensures QueueOk() && cells == []
      ensures chStart == chEnd ==> forall v :: 0 <= v < |adj| ==> rgnNodes[v] == Node(NONE, NONE)
      ensures chStart != chEnd ==> Solved(adj, chStart, rgnNodes[..])
    {
      for ch := 0 to rgnNodes.Length
        invariant QueueOk() && cells == [] && made == old(made) && forall v :: 0 <= v < ch ==> rgnNodes[v] == Node(NONE, NONE)
      {
        rgnNodes[ch] := Node(NONE, NONE);
      }
      if chStart != chEnd {
        hide Labels.Search, Solved, Total, Scanning;
        rgnNodes[chStart] := Node(0, NONE);
        Enqueue(chStart, 0, NONE);
        ghost var paths: seq<seq<nat>>, stamps: seq<nat>, clock: nat := [[chStart]], seq(|adj|, _ => 0), 1;
        SearchStarts(adj, chStart, rgnNodes[..]);
        assert ItemsOf(cells) == [Item(chStart, 0, NONE)];
        while Qcount() > 0
          invariant QueueOk() && fresh(made - old(made)) && |stamps| == |adj|
          invariant Labels.Search(adj, chStart, rgnNodes[..], ItemsOf(cells), paths, stamps, clock)
          decreases Total(rgnNodes[..]), |cells|
        {
          Taken(adj, chStart, rgnNodes[..], ItemsOf(cells), paths, stamps, clock);
          TakenNode(adj, chStart, rgnNodes[..], ItemsOf(cells), paths, stamps, clock);
          ghost var x, path := ItemsOf(cells)[0], paths[0];
          paths := paths[1..];
          var iNode, iDist, iPrev := Dequeue();
          paths, stamps, clock := RelaxAll(iNode, iDist, x, chStart, m, paths, stamps, clock, path);
        }
        assert ItemsOf(cells) == [];
        SearchSolves(adj, chStart, rgnNodes[..], paths, stamps, clock);
      }
    }

    /** `print_path`, which returns the nodes it prints: a shortest path, or the node alone if it cannot be reached. */
    method PrintPath(chNode: nat, ghost s: nat, ghost stamps: seq<nat>) returns (printed: seq<nat>)
      requires Matrix(adj) && |adj| <= NONE && rgnNodes.Length == |adj| && chNode < |adj| && s < |adj|
      requires Solved(adj, s, rgnNodes[..]) && Ranked(adj, s, rgnNodes[..], stamps)
      ensures if rgnNodes[chNode].iDist == NONE then printed == [chNode]
        else WalkTo(adj, printed, s, chNode, rgnNodes[chNode].iDist) && IsShortest(adj, s, chNode, rgnNodes[chNode].iDist)
      decreases rgnNodes[chNode].iDist, stamps[chNode]
    {
      assert LinkExact(adj, s, rgnNodes[..], chNode);
      printed := [];
      if rgnNodes[chNode].iPrev != NONE {
        assert Before(rgnNodes[..], stamps, rgnNodes[chNode].iPrev, chNode);
        printed := PrintPath(rgnNodes[chNode].iPrev, s, stamps);
        Extend(adj, printed, s, rgnNodes[chNode].iPrev, rgnNodes[rgnNodes[chNode].iPrev].iDist, chNode);
      }
      printed := printed + [chNode];
    }
  }
}
