/** Moving keys between neighbours, and how full the nodes are. */
module BTreeMoves {
  import opened Hashing
  import opened BTreeShape
  import opened BTreeSplit

  /** The neighbours `l` and `r` after their keys are redistributed so that `l` keeps `k` of them. */
  function Rebalanced(nodes: Nodes, q: Id, p: nat, l: Id, r: Id, k: nat): (m: Nodes)
    requires q in nodes && l in nodes && r in nodes && l != r && q != r
    requires p < |nodes[q].values| && p + 1 < |nodes[q].children|
    requires k < |nodes[l].values| + 1 + |nodes[r].values|
    requires l != q && (nodes[l].leaf || k < |nodes[l].children| + |nodes[r].children|)
  {
    Split(Merged(nodes, q, p, l, r), q, p, l, k, r, nodes[r].maxCount)
  }

  ghost function RebalancedInfo(info: Infos, nodes: Nodes, q: Id, p: nat, l: Id, r: Id, k: nat): (f: Infos)
    requires q in nodes && l in nodes && r in nodes && l in info && r in info && l != r
    requires p < |nodes[q].values| && p + 1 < |nodes[q].children|
    requires k < |nodes[l].values| + 1 + |nodes[r].values|
  {
    SplitInfo(MergedInfo(info, l, r), Merged(nodes, q, p, l, r), l, k, r)
  }

  ghost function RebalancedHome(home: Home, nodes: Nodes, q: Id, p: nat, l: Id, r: Id, k: nat): (h: Home)
    requires q in nodes && l in nodes && r in nodes && l != r
    requires p < |nodes[q].values| && p + 1 < |nodes[q].children|
    requires k < |nodes[l].values| + 1 + |nodes[r].values|
  {
    SplitHome(MergedHome(home, nodes, q, p, l, r), Merged(nodes, q, p, l, r), q, l, k, r)
  }

  /** Two neighbours and a new number of keys for the left one. */
  ghost predicate CanMove(nodes: Nodes, info: Infos, q: Id, p: nat, l: Id, r: Id, k: nat) {
    && Siblings(nodes, info, q, p, l, r) && NONE !in nodes
    && k < |nodes[l].values| + 1 + |nodes[r].values|
    && (nodes[l].leaf || k < |nodes[l].children| + |nodes[r].children|)
  }

  /** Redistribution keeps the tree and its keys. */
  lemma RebalanceKeeps(nodes: Nodes, info: Infos, home: Home, root: Id, q: Id, p: nat, l: Id, r: Id, k: nat)
    requires Linked(nodes, info, home, root) && CanMove(nodes, info, q, p, l, r, k)
    ensures Linked(Rebalanced(nodes, q, p, l, r, k), RebalancedInfo(info, nodes, q, p, l, r, k),
              RebalancedHome(home, nodes, q, p, l, r, k), root)
    ensures RebalancedHome(home, nodes, q, p, l, r, k).Keys == home.Keys
  {
    hide Linked, NodeOk, Split, SplitInfo, SplitHome;
    MergeKeeps(nodes, info, home, root, q, p, l, r);
    MergedCanSplit(nodes, info, home, root, q, p, l, r, k);
    var m, f, h := Merged(nodes, q, p, l, r), MergedInfo(info, l, r), MergedHome(home, nodes, q, p, l, r);
    SplitKeeps(m, f, h, root, q, p, l, k, r, nodes[r].maxCount);
  }

  lemma MergedCanSplit(nodes: Nodes, info: Infos, home: Home, root: Id, q: Id, p: nat, l: Id, r: Id, k: nat)
    requires Linked(nodes, info, home, root) && CanMove(nodes, info, q, p, l, r, k)
    ensures l != root && CanSplit(Merged(nodes, q, p, l, r), MergedInfo(info, l, r), q, p, l, k, r)
  {
    NeighbourFacts(nodes, info, home, root, q, p, l, r);
    assert NodeOk(nodes, info, home, root, q);
    var m := Merged(nodes, q, p, l, r);
    assert m[q].children[p] == l;
  }

  /** Node `id` after the redistribution, written out. */
  function MovedNode(nodes: Nodes, q: Id, p: nat, l: Id, r: Id, k: nat, id: Id): (n: Node)
    requires q in nodes && l in nodes && r in nodes && id in nodes && p < |nodes[q].values|
    requires k < |nodes[l].values| + 1 + |nodes[r].values|
    requires nodes[id].leaf || !(id == l || id == r) || k < |nodes[l].children| + |nodes[r].children|
  {
    var n, a := nodes[id], |nodes[l].values|;
    var c, ch := nodes[l].values + [nodes[q].values[p]] + nodes[r].values, nodes[l].children + nodes[r].children;
    if id == l then n.(values := c[..k], children := if n.leaf then [] else ch[..k + 1])
    else if id == r then n.(values := c[k + 1..], children := if n.leaf then [] else ch[k + 1..])
    else if id == q then n.(values := n.values[p := c[k]])
    else if n.parent == r && n.position + a >= k then n.(position := n.position + a - k)
    else if n.parent == r then n.(parent := l, position := n.position + a + 1)
    else if n.parent == l && n.position > k then n.(parent := r, position := n.position - k - 1)
    else n
  }

  lemma RebalancedNode(nodes: Nodes, info: Infos, q: Id, p: nat, l: Id, r: Id, k: nat, id: Id)
    requires CanMove(nodes, info, q, p, l, r, k) && id in nodes
    requires nodes[id].parent == q && nodes[id].position == p + 1 ==> id == r
    ensures Rebalanced(nodes, q, p, l, r, k).Keys == nodes.Keys
    ensures Rebalanced(nodes, q, p, l, r, k)[id] == MovedNode(nodes, q, p, l, r, k, id)
  {
    var m := Merged(nodes, q, p, l, r);
    assert Rebalanced(nodes, q, p, l, r, k)[id] == SplitNode(m, q, p, l, k, r, nodes[r].maxCount, id);
    if id == q {
      var c := nodes[l].values + [nodes[q].values[p]] + nodes[r].values;
      SameAgain(nodes[q].values, nodes[q].children, p, c[k], r);
    }
  }

  lemma MoveNode(nodes: Nodes, info: Infos, home: Home, root: Id, q: Id, p: nat, l: Id, r: Id, k: nat, id: Id)
    requires Linked(nodes, info, home, root) && CanMove(nodes, info, q, p, l, r, k)
    ensures Rebalanced(nodes, q, p, l, r, k).Keys == nodes.Keys
    ensures id in nodes ==> Rebalanced(nodes, q, p, l, r, k)[id] == MovedNode(nodes, q, p, l, r, k, id)
  {
    hide Rebalanced, MovedNode;
    RebalancedNode(nodes, info, q, p, l, r, k, l);
    if id in nodes {
      assert NodeOk(nodes, info, home, root, id);
      RebalancedNode(nodes, info, q, p, l, r, k, id);
    }
  }

  lemma SameAgain(w: seq<int>, ch: seq<Id>, p: nat, d: int, r: Id)
    requires p < |w| && p + 1 < |ch| && ch[p + 1] == r
    ensures With(Without(w, p), p, d) == w[p := d]
    ensures With(Without(ch, p + 1), p + 1, r) == ch
  {
  }

  // ----- how full the nodes are -----

  /** Every node has room for its keys, and every node but `except` has a key. */
  ghost predicate Filled(nodes: Nodes, root: Id, cap: nat, except: Id) {
    forall id | id in nodes :: NodeFilled(nodes[id], id == root, cap, id == except)
  }

  /** A node holds between one key and its maximum; only a leaf that is the root may be smaller than the others. */
  predicate NodeFilled(n: Node, isRoot: bool, cap: nat, mayBeEmpty: bool) {
    && |n.values| <= n.maxCount <= cap
    && (mayBeEmpty || |n.values| > 0)
    && (n.maxCount == cap || (isRoot && n.leaf && n.maxCount > 0))
  }
}
