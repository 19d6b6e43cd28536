/**
 `Bimerge` and `Bisort` of `olden_bisort/src/main.c` on the mutable tree: values and
 child pointers of shared nodes are swapped in place.  Both methods are proved to turn
 the tree that is in the heap into the one that `Bitonic.Merge` and `Bitonic.Sort` give.
 */
module BisortTree {
  import opened Bitonic

  class Node {
    var left: Node?
    var right: Node?
    var value: int

    constructor (v: int)
      ensures left == null && right == null && value == v
    {
      value, left, right := v, null, null;
    }
  }

  // ---------- trees in the heap ----------

  /** The heap holds `t` at `p`. */
  ghost predicate Holds(t: Tree<Node>, p: Node?)
    reads Nodes(t)
  {
    match t
    case Nil => p == null
    case Bin(n, l, v, r) => p == n && n.value == v && Holds(l, n.left) && Holds(r, n.right)
  }

  /** A tree with a hole, on the path that the descent has taken. */
  datatype Path =
    | Top
    | LeftOf(up: Path, node: Node, value: int, right: Tree<Node>)
    | RightOf(up: Path, node: Node, left: Tree<Node>, value: int)

  ghost function Plug(c: Path, t: Tree<Node>): Tree<Node>
    decreases c
  {
    match c
    case Top => t
    case LeftOf(up, n, v, r) => Plug(up, Bin(n, t, v, r))
    case RightOf(up, n, l, v) => Plug(up, Bin(n, l, v, t))
  }

  ghost function PathNodes(c: Path): set<Node> {
    match c
    case Top => {}
    case LeftOf(up, n, _, r) => {n} + Nodes(r) + PathNodes(up)
    case RightOf(up, n, l, _) => {n} + Nodes(l) + PathNodes(up)
  }

  /** The heap holds the path from `root` down to the hole, whose place is taken by `hole`. */
  ghost predicate HoldsPath(c: Path, hole: Node?, root: Node?)
    reads PathNodes(c)
  {
    match c
    case Top => hole == root
    case LeftOf(up, n, v, r) => n.left == hole && n.value == v && Holds(r, n.right) && HoldsPath(up, n, root)
    case RightOf(up, n, l, v) => n.right == hole && n.value == v && Holds(l, n.left) && HoldsPath(up, n, root)
  }

  lemma {:induction false} PlugHolds(c: Path, t: Tree<Node>, hole: Node?, root: Node?)
    requires HoldsPath(c, hole, root) && Holds(t, hole)
    ensures Holds(Plug(c, t), root)
    decreases c
  {
    match c
    case Top =>
    case LeftOf(up, n, v, r) => PlugHolds(up, Bin(n, t, v, r), n, root);
    case RightOf(up, n, l, v) => PlugHolds(up, Bin(n, l, v, t), n, root);
  }

  // ---------- building ----------

  /** Halvings until at most one is left. */
  ghost function Halvings(n: int): nat {
    if n > 1 then 1 + Halvings(n / 2) else 0
  }

  /** `RandTree`, for any generator of seeds and values: the tree is perfect for every size. */
  method RandTree(n: int, seed: int, random: int -> int, skip: (int, int) -> int, value: int -> int)
    returns (h: Node?, ghost t: Tree<Node>)
    ensures Holds(t, h) && Perfect(t, Halvings(n)) && Simple(t) && fresh(Nodes(t))
    decreases n
  {
    if n > 1 {
      var next := random(seed);
      var root := new Node(value(next));
      ghost var l, r;
      root.left, l := RandTree(n / 2, next, random, skip, value);
      assert allocated(Nodes(l));
      root.right, r := RandTree(n / 2, skip(next, n + 1), random, skip, value);
      h, t := root, Bin(root, l, root.value, r);
    } else {
      h, t := null, Nil;
    }
  }

  // ---------- swapping ----------

  method SwapVal(l: Node, r: Node)
    modifies l, r
    ensures l.value == old(r.value) && r.value == old(l.value)
    ensures l.left == old(l.left) && l.right == old(l.right) && r.left == old(r.left) && r.right == old(r.right)
  {
    var temp := l.value;
    l.value := r.value;
    r.value := temp;
  }

  method SwapLeft(l: Node, r: Node)
    modifies l, r
    ensures l.left == old(r.left) && r.left == old(l.left)
    ensures l.value == old(l.value) && l.right == old(l.right) && r.value == old(r.value) && r.right == old(r.right)
  {
    var h := r.left;
    r.left := l.left;
    l.left := h;
  }

  method SwapRight(l: Node, r: Node)
    modifies l, r
    ensures l.right == old(r.right) && r.right == old(l.right)
    ensures l.value == old(l.value) && l.left == old(l.left) && r.value == old(r.value) && r.left == old(r.left)
  {
    var h := r.right;
    r.right := l.right;
    l.right := h;
  }

  // ---------- the descent ----------

  /** Where the descent stands: two subtrees still to go, and the two paths that led to them, all apart. */
  ghost predicate Standing(all: set<Node>, cl: Path, cr: Path, tl: Tree<Node>, tr: Tree<Node>,
                           pl: Node?, pr: Node?, pl0: Node?, pr0: Node?)
    reads all
  {
    && Nodes(tl) <= all && Nodes(tr) <= all && PathNodes(cl) <= all && PathNodes(cr) <= all
    && Simple(tl) && Simple(tr)
    && Nodes(tl) !! Nodes(tr) !! PathNodes(cl) !! PathNodes(cr)
    && Holds(tl, pl) && Holds(tr, pr)
    && HoldsPath(cl, pl, pl0) && HoldsPath(cr, pr, pr0)
  }

  /** The pieces of two separate trees and paths, rearranged, are separate too. */
  lemma PartsApart(all: set<Node>, cl: Path, cr: Path, tl: Tree<Node>, tr: Tree<Node>)
    requires tl.Bin? && tr.Bin? && Simple(tl) && Simple(tr)
    requires Nodes(tl) <= all && Nodes(tr) <= all && PathNodes(cl) <= all && PathNodes(cr) <= all
    requires Nodes(tl) !! Nodes(tr) !! PathNodes(cl) !! PathNodes(cr)
    ensures {tl.node, tr.node} !! Nodes(tl.left) + Nodes(tl.right) + Nodes(tr.left) + Nodes(tr.right)
    ensures {tl.node, tr.node} !! PathNodes(cl) + PathNodes(cr)
    ensures Nodes(tl.left) + Nodes(tl.right) + Nodes(tr.left) + Nodes(tr.right) <= all
    ensures Simple(tl.left) && Simple(tl.right) && Simple(tr.left) && Simple(tr.right)
    ensures var c, d := LeftOf(cl, tl.node, tr.value, tr.right), LeftOf(cr, tr.node, tl.value, tl.right);
      PathNodes(c) <= all && PathNodes(d) <= all && Nodes(tl.left) !! Nodes(tr.left) !! PathNodes(c) !! PathNodes(d)
    ensures var c, d := RightOf(cl, tl.node, tr.left, tr.value), RightOf(cr, tr.node, tl.left, tl.value);
      PathNodes(c) <= all && PathNodes(d) <= all && Nodes(tl.right) !! Nodes(tr.right) !! PathNodes(c) !! PathNodes(d)
  {
    var a, b, c, d := Nodes(tl.left), Nodes(tl.right), Nodes(tr.left), Nodes(tr.right);
    assert Nodes(tl) == {tl.node} + a + b && Nodes(tr) == {tr.node} + c + d;
    var p, q := PathNodes(cl), PathNodes(cr);
    hide Nodes, PathNodes, Simple;
    SetsApart(tl.node, tr.node, a, b, c, d, p, q);
    PathPieces(cl, tl.node, tr);
    PathPieces(cr, tr.node, tl);
  }

  /** The same with nothing exchanged. */
  lemma StandParts(all: set<Node>, cl: Path, cr: Path, tl: Tree<Node>, tr: Tree<Node>)
    requires tl.Bin? && tr.Bin? && Simple(tl) && Simple(tr)
    requires Nodes(tl) <= all && Nodes(tr) <= all && PathNodes(cl) <= all && PathNodes(cr) <= all
    requires Nodes(tl) !! Nodes(tr) !! PathNodes(cl) !! PathNodes(cr)
    ensures Nodes(tl.left) + Nodes(tl.right) + Nodes(tr.left) + Nodes(tr.right) <= all
    ensures Simple(tl.left) && Simple(tl.right) && Simple(tr.left) && Simple(tr.right)
    ensures var c, d := LeftOf(cl, tl.node, tl.value, tl.right), LeftOf(cr, tr.node, tr.value, tr.right);
      PathNodes(c) <= all && PathNodes(d) <= all && Nodes(tl.left) !! Nodes(tr.left) !! PathNodes(c) !! PathNodes(d)
    ensures var c, d := RightOf(cl, tl.node, tl.left, tl.value), RightOf(cr, tr.node, tr.left, tr.value);
      PathNodes(c) <= all && PathNodes(d) <= all && Nodes(tl.right) !! Nodes(tr.right) !! PathNodes(c) !! PathNodes(d)
  {
    var a, b, c, d := Nodes(tl.left), Nodes(tl.right), Nodes(tr.left), Nodes(tr.right);
    assert Nodes(tl) == {tl.node} + a + b && Nodes(tr) == {tr.node} + c + d;
    var p, q := PathNodes(cl), PathNodes(cr);
    hide Nodes, PathNodes, Simple;
    SetsStill(tl.node, tr.node, a, b, c, d, p, q);
    SetsStill(tl.node, tr.node, b, a, d, c, p, q);
    PathPieces(cl, tl.node, tl);
    PathPieces(cr, tr.node, tr);
  }

  lemma SetsStill<T>(x: T, y: T, a: set<T>, b: set<T>, c: set<T>, d: set<T>, p: set<T>, q: set<T>)
    requires {x} + a + b !! {y} + c + d !! p !! q
    requires x !in a && a !! b && y !in c && c !! d
    ensures a !! c !! {x} + b + p !! {y} + d + q
  {
  }

  lemma PathPieces(c: Path, n: Node, t: Tree<Node>)
    requires t.Bin?
    ensures PathNodes(LeftOf(c, n, t.value, t.right)) == {n} + Nodes(t.right) + PathNodes(c)
    ensures PathNodes(RightOf(c, n, t.left, t.value)) == {n} + Nodes(t.left) + PathNodes(c)
  {
  }

  lemma SetsApart<T>(x: T, y: T, a: set<T>, b: set<T>, c: set<T>, d: set<T>, p: set<T>, q: set<T>)
    requires {x} + a + b !! {y} + c + d !! p !! q
    requires x !in a && x !in b && a !! b && y !in c && y !in d && c !! d
    ensures {x, y} !! a + b + c + d && {x, y} !! p + q
    ensures a !! c !! {x} + d + p !! {y} + b + q
    ensures b !! d !! {x} + c + p !! {y} + a + q
  {
  }

  lemma HoldsParts(t: Tree<Node>, p: Node)
    requires Holds(t, p) && t.Bin?
    ensures t.node == p && t.value == p.value && Holds(t.left, p.left) && Holds(t.right, p.right)
  {
  }

  /** Going left without an exchange. */
  lemma StandLeft(all: set<Node>, cl: Path, cr: Path, tl: Tree<Node>, tr: Tree<Node>,
                  pl: Node, pr: Node, pl0: Node?, pr0: Node?)
    requires Standing(all, cl, cr, tl, tr, pl, pr, pl0, pr0) && tl.Bin? && tr.Bin?
    ensures Standing(all, LeftOf(cl, pl, tl.value, tl.right), LeftOf(cr, pr, tr.value, tr.right),
                     tl.left, tr.left, pl.left, pr.left, pl0, pr0)
  {
    hide Nodes, PathNodes, Simple;
    HoldsParts(tl, pl);
    HoldsParts(tr, pr);
    StandParts(all, cl, cr, tl, tr);
  }

  /** Going right without an exchange. */
  lemma StandRight(all: set<Node>, cl: Path, cr: Path, tl: Tree<Node>, tr: Tree<Node>,
                   pl: Node, pr: Node, pl0: Node?, pr0: Node?)
    requires Standing(all, cl, cr, tl, tr, pl, pr, pl0, pr0) && tl.Bin? && tr.Bin?
    ensures Standing(all, RightOf(cl, pl, tl.left, tl.value), RightOf(cr, pr, tr.left, tr.value),
                     tl.right, tr.right, pl.right, pr.right, pl0, pr0)
  {
    hide Nodes, PathNodes, Simple;
    HoldsParts(tl, pl);
    HoldsParts(tr, pr);
    StandParts(all, cl, cr, tl, tr);
  }

  /** Exchanging values and right subtrees, then going left. */
  method ExchangeRight(pl: Node, pr: Node, ghost all: set<Node>, ghost cl: Path, ghost cr: Path,
                       ghost tl: Tree<Node>, ghost tr: Tree<Node>, ghost pl0: Node?, ghost pr0: Node?)
    requires Standing(all, cl, cr, tl, tr, pl, pr, pl0, pr0) && tl.Bin? && tr.Bin?
    modifies pl, pr
    ensures Standing(all, LeftOf(cl, pl, tr.value, tr.right), LeftOf(cr, pr, tl.value, tl.right),
                     tl.left, tr.left, pl.left, pr.left, pl0, pr0)
  {
    hide Nodes, PathNodes, Simple;
    ghost var a, b, c, d := pl.left, pl.right, pr.left, pr.right;
    HoldsParts(tl, pl);
    HoldsParts(tr, pr);
    PartsApart(all, cl, cr, tl, tr);
    SwapVal(pl, pr);
    SwapRight(pl, pr);
    assert Holds(tl.left, a) && Holds(tl.right, b) && Holds(tr.left, c) && Holds(tr.right, d);
    assert HoldsPath(cl, pl, pl0) && HoldsPath(cr, pr, pr0);
  }

  /** Exchanging values and left subtrees, then going right. */
  method ExchangeLeft(pl: Node, pr: Node, ghost all: set<Node>, ghost cl: Path, ghost cr: Path,
                      ghost tl: Tree<Node>, ghost tr: Tree<Node>, ghost pl0: Node?, ghost pr0: Node?)
    requires Standing(all, cl, cr, tl, tr, pl, pr, pl0, pr0) && tl.Bin? && tr.Bin?
    modifies pl, pr
    ensures Standing(all, RightOf(cl, pl, tr.left, tr.value), RightOf(cr, pr, tl.left, tl.value),
                     tl.right, tr.right, pl.right, pr.right, pl0, pr0)
  {
    hide Nodes, PathNodes, Simple;
    ghost var a, b, c, d := pl.left, pl.right, pr.left, pr.right;
    HoldsParts(tl, pl);
    HoldsParts(tr, pr);
    PartsApart(all, cl, cr, tl, tr);
    SwapVal(pl, pr);
    SwapLeft(pl, pr);
    assert Holds(tl.left, a) && Holds(tl.right, b) && Holds(tr.left, c) && Holds(tr.right, d);
    assert HoldsPath(cl, pl, pl0) && HoldsPath(cr, pr, pr0);
  }

  /** The whole descent from `l` and `r` is the rest of it from `tl` and `tr`, put back into the paths. */
  ghost predicate Pending(l: Tree<Node>, r: Tree<Node>, right: bool, dir: bool, d: nat,
                          cl: Path, cr: Path, tl: Tree<Node>, tr: Tree<Node>, k: nat)
  {
    && Perfect(l, d) && Perfect(r, d) && Perfect(tl, k) && Perfect(tr, k)
    && Descend(l, r, right, dir, d).0 == Plug(cl, Descend(tl, tr, right, dir, k).0)
    && Descend(l, r, right, dir, d).1 == Plug(cr, Descend(tl, tr, right, dir, k).1)
  }

  lemma PendingStep(l: Tree<Node>, r: Tree<Node>, right: bool, dir: bool, d: nat,
                    cl: Path, cr: Path, tl: Tree<Node>, tr: Tree<Node>, k: nat)
    requires Pending(l, r, right, dir, d, cl, cr, tl, tr, k) && tl.Bin?
    ensures tr.Bin? && k > 0
    ensures var x := Exch(tl.value, tr.value, dir);
      if right == x then
        Pending(l, r, right, dir, d,
          LeftOf(cl, tl.node, if x then tr.value else tl.value, if x then tr.right else tl.right),
          LeftOf(cr, tr.node, if x then tl.value else tr.value, if x then tl.right else tr.right),
          tl.left, tr.left, k - 1)
      else
        Pending(l, r, right, dir, d,
          RightOf(cl, tl.node, if x then tr.left else tl.left, if x then tr.value else tl.value),
          RightOf(cr, tr.node, if x then tl.left else tr.left, if x then tl.value else tr.value),
          tl.right, tr.right, k - 1)
  {
  }

  /** The while loop of `Bimerge` on the two subtrees at `pl0` and `pr0`. */
  method DescendInPlace(pl0: Node?, pr0: Node?, right: bool, dir: bool, ghost l: Tree<Node>, ghost r: Tree<Node>, ghost d: nat)
    requires Perfect(l, d) && Perfect(r, d) && Holds(l, pl0) && Holds(r, pr0)
    requires Simple(l) && Simple(r) && Nodes(l) !! Nodes(r)
    modifies Nodes(l) + Nodes(r)
    ensures Holds(Descend(l, r, right, dir, d).0, pl0) && Holds(Descend(l, r, right, dir, d).1, pr0)
  {
    hide Descend, Perfect, Plug, Simple, Standing, Pending, Holds, HoldsPath, PathNodes;
    var pl, pr := pl0, pr0;
    ghost var cl, cr, tl, tr, k := Path.Top, Path.Top, l, r, d;
    ghost var all := Nodes(l) + Nodes(r);
    StartPending(l, r, right, dir, d);
    StartStanding(l, r, pl0, pr0);
    while pl != null
      invariant Standing(all, cl, cr, tl, tr, pl, pr, pl0, pr0)
      invariant Pending(l, r, right, dir, d, cl, cr, tl, tr, k)
      decreases k
    {
      StandShape(all, cl, cr, tl, tr, pl, pr, pl0, pr0);
      PendingStep(l, r, right, dir, d, cl, cr, tl, tr, k);
      var elementexchange := Exch(pl.value, pr.value, dir);
      if right {
        if elementexchange {
          ExchangeRight(pl, pr, all, cl, cr, tl, tr, pl0, pr0);
          cl, cr := LeftOf(cl, pl, tr.value, tr.right), LeftOf(cr, pr, tl.value, tl.right);
          tl, tr := tl.left, tr.left;
          pl, pr := pl.left, pr.left;
        } else {
          StandRight(all, cl, cr, tl, tr, pl, pr, pl0, pr0);
          cl, cr := RightOf(cl, pl, tl.left, tl.value), RightOf(cr, pr, tr.left, tr.value);
          tl, tr := tl.right, tr.right;
          pl, pr := pl.right, pr.right;
        }
      } else {
        if elementexchange {
          ExchangeLeft(pl, pr, all, cl, cr, tl, tr, pl0, pr0);
          cl, cr := RightOf(cl, pl, tr.left, tr.value), RightOf(cr, pr, tl.left, tl.value);
          tl, tr := tl.right, tr.right;
          pl, pr := pl.right, pr.right;
        } else {
          StandLeft(all, cl, cr, tl, tr, pl, pr, pl0, pr0);
          cl, cr := LeftOf(cl, pl, tl.value, tl.right), LeftOf(cr, pr, tr.value, tr.right);
          tl, tr := tl.left, tr.left;
          pl, pr := pl.left, pr.left;
        }
      }
      k := k - 1;
    }
    StandShape(all, cl, cr, tl, tr, pl, pr, pl0, pr0);
    EndPending(l, r, right, dir, d, cl, cr, tl, tr, k);
    PlugHolds(cl, tl, pl, pl0);
    PlugHolds(cr, tr, pr, pr0);
  }

  lemma StartStanding(l: Tree<Node>, r: Tree<Node>, pl0: Node?, pr0: Node?)
    requires Holds(l, pl0) && Holds(r, pr0) && Simple(l) && Simple(r) && Nodes(l) !! Nodes(r)
    ensures Standing(Nodes(l) + Nodes(r), Path.Top, Path.Top, l, r, pl0, pr0, pl0, pr0)
  {
    hide Nodes, Simple;
  }

  /** The pointers and the trees they stand for. */
  lemma StandShape(all: set<Node>, cl: Path, cr: Path, tl: Tree<Node>, tr: Tree<Node>,
                   pl: Node?, pr: Node?, pl0: Node?, pr0: Node?)
    requires Standing(all, cl, cr, tl, tr, pl, pr, pl0, pr0)
    ensures Holds(tl, pl) && Holds(tr, pr) && HoldsPath(cl, pl, pl0) && HoldsPath(cr, pr, pr0)
    ensures pl == null <==> tl.Nil?
    ensures tl.Bin? ==> pl == tl.node && pl.value == tl.value && pl in all
    ensures tr.Bin? ==> pr == tr.node && pr.value == tr.value && pr in all
  {
  }

  lemma StartPending(l: Tree<Node>, r: Tree<Node>, right: bool, dir: bool, d: nat)
    requires Perfect(l, d) && Perfect(r, d)
    ensures Pending(l, r, right, dir, d, Top, Top, l, r, d)
  {
  }

  lemma EndPending(l: Tree<Node>, r: Tree<Node>, right: bool, dir: bool, d: nat,
                   cl: Path, cr: Path, tl: Tree<Node>, tr: Tree<Node>, k: nat)
    requires Pending(l, r, right, dir, d, cl, cr, tl, tr, k) && tl.Nil?
    ensures Descend(l, r, right, dir, d) == (Plug(cl, tl), Plug(cr, tr))
  {
  }

  // ---------- merging and sorting ----------

  /** The first half of `Bimerge`: the exchange at the root and the while loop. */
  method CleanInPlace(root: Node, spr_val: int, dir: bool, ghost t: Tree<Node>, ghost d: nat) returns (spare: int)
    requires t.Bin? && Perfect(t, d) && Holds(t, root) && Simple(t)
    modifies Nodes(t)
    ensures var x := Exch(t.value, spr_val, dir);
      var (l, r) := Descend(t.left, t.right, x, dir, d - 1);
      && root.value == (if x then spr_val else t.value) && spare == (if x then t.value else spr_val)
      && Holds(l, root.left) && Holds(r, root.right)
  {
    assert Holds(t.left, root.left) && Holds(t.right, root.right);
    assert Nodes(t) == {root} + Nodes(t.left) + Nodes(t.right);
    spare := spr_val;
    var rightexchange := Exch(root.value, spare, dir);
    if rightexchange {
      var temp := root.value;
      root.value := spare;
      spare := temp;
    }
    DescendInPlace(root.left, root.right, rightexchange, dir, t.left, t.right, d - 1);
  }

  /** The second half of `Bimerge`: the two recursive merges. */
  method MergeHalves(root: Node, spr_val: int, dir: bool, ghost l: Tree<Node>, ghost r: Tree<Node>, ghost d: nat)
    returns (spare: int)
    requires l.Bin? && r.Bin? && Perfect(l, d) && Perfect(r, d) && Simple(l) && Simple(r)
    requires Holds(l, root.left) && Holds(r, root.right)
    requires root !in Nodes(l) && root !in Nodes(r) && Nodes(l) !! Nodes(r)
    modifies {root} + Nodes(l) + Nodes(r)
    ensures var ((l', v), (r', s)) := (Merge(l, old(root.value), dir, d), Merge(r, spr_val, dir, d));
      root.value == v && spare == s && Holds(l', root.left) && Holds(r', root.right)
    decreases d, 1
  {
    assert allocated(Nodes(l)) && allocated(Nodes(r));
    ghost var l', r' := Merge(l, root.value, dir, d).0, Merge(r, spr_val, dir, d).0;
    MergeNodes(l, root.value, dir, d);
    MergeNodes(r, spr_val, dir, d);
    hide Nodes, Simple, Descend, Merge;
    var x := Bimerge(root.left, root.value, dir, l, d);
    assert Holds(l', root.left) && Holds(r, root.right);
    root.value := x;
    assert Holds(l', root.left) && Holds(r, root.right);
    spare := Bimerge(root.right, spr_val, dir, r, d);
  }

  /** `Bimerge`. */
  method Bimerge(root: Node, spr_val: int, dir: bool, ghost t: Tree<Node>, ghost d: nat) returns (spare: int)
    requires t.Bin? && Perfect(t, d) && Holds(t, root) && Simple(t)
    modifies Nodes(t)
    ensures Holds(Merge(t, spr_val, dir, d).0, root) && spare == Merge(t, spr_val, dir, d).1
    decreases d, 0
  {
    ghost var (l, r) := Descend(t.left, t.right, Exch(t.value, spr_val, dir), dir, d - 1);
    DescendNodes(t.left, t.right, Exch(t.value, spr_val, dir), dir, d - 1);
    assert Nodes(t) == {root} + Nodes(l) + Nodes(r);
    assert root !in Nodes(l) && root !in Nodes(r);
    spare := CleanInPlace(root, spr_val, dir, t, d);
    if root.left != null {
      assert l.Bin? && r.Bin?;
      ghost var (l', v) := Merge(l, root.value, dir, d - 1);
      ghost var (r', s) := Merge(r, spare, dir, d - 1);
      assert Merge(t, spr_val, dir, d) == (Bin(root, l', v, r'), s);
      hide Nodes, Simple, Descend, Merge;
      spare := MergeHalves(root, spare, dir, l, r, d - 1);
    }
  }

  /** `Bisort`. */
  method Bisort(root: Node, spr_val: int, dir: bool, ghost t: Tree<Node>, ghost d: nat) returns (spare: int)
    requires t.Bin? && Perfect(t, d) && Holds(t, root) && Simple(t)
    modifies Nodes(t)
    ensures Holds(Sort(t, spr_val, dir, d).0, root) && spare == Sort(t, spr_val, dir, d).1
    decreases d
  {
    assert allocated(t) && allocated(Nodes(t));
    assert Nodes(t) == {root} + Nodes(t.left) + Nodes(t.right);
    spare := spr_val;
    if root.left == null {
      if Exch(root.value, spare, dir) {
        var val := spare;
        spare := root.value;
        root.value := val;
      }
    } else {
      ghost var (l, v) := Sort(t.left, t.value, dir, d - 1);
      ghost var (r, s) := Sort(t.right, spare, !dir, d - 1);
      SortNodes(t.left, t.value, dir, d - 1);
      SortNodes(t.right, spare, !dir, d - 1);
      var x := Bisort(root.left, root.value, dir, t.left, d - 1);
      root.value := x;
      spare := Bisort(root.right, spare, !dir, t.right, d - 1);
      ghost var m := Bin(root, l, v, r);
      spare := Bimerge(root, spare, dir, m, d);
    }
  }

  /**
   Sorting a heap tree: the nodes, the root and the perfect shape are the old ones, the values are
   permuted, and they are in order from `root` to the returned spare if they were distinct.
   */
  method BisortSorts(root: Node, spr_val: int, dir: bool, ghost t: Tree<Node>, ghost d: nat)
    returns (spare: int, ghost u: Tree<Node>)
    requires t.Bin? && Perfect(t, d) && Holds(t, root) && Simple(t)
    modifies Nodes(t)
    ensures Holds(u, root) && u.Bin? && u.node == root && Perfect(u, d) && Simple(u) && Nodes(u) == Nodes(t)
    ensures multiset(Values(u, spare)) == multiset(Values(t, spr_val))
    ensures d <= 3 || Distinct(Values(t, spr_val)) ==> Sorted(Values(u, spare), dir)
  {
    spare := Bisort(root, spr_val, dir, t, d);
    u := Sort(t, spr_val, dir, d).0;
    SortNodes(t, spr_val, dir, d);
    SortSameValues(t, spr_val, dir, d);
    if d <= 3 || Distinct(Values(t, spr_val)) {
      SortSorts(t, spr_val, dir, d);
    }
  }
}
