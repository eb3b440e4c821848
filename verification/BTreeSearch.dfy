/** Why the descent from the root finds every key. */
module BTreeSearch {
  import opened Hashing
  import opened BTreeShape
  import opened BTreeSplit
  import opened BTreeLeaf

  /** `k` belongs to the half-open interval of a node. */
  ghost predicate Covers(f: Info, k: int) {
    f.lo < k <= f.hi
  }

  /** No other node of its level covers `k`, and if a higher node holds `k` then it bounds `x` on the right. */
  ghost predicate OnPath(nodes: Nodes, info: Infos, home: Home, x: Id, k: int) {
    && x in nodes && x in info && Covers(info[x], k)
    && (forall y | y in info && info[y].level == info[x].level && Covers(info[y], k) :: y == x)
    && (k in home && home[k] in info && info[home[k]].level > info[x].level ==> info[x].hi == k)
  }

  lemma RootOnPath(nodes: Nodes, info: Infos, home: Home, root: Id, k: int)
    requires Linked(nodes, info, home, root) && -1 < k < TWO_64
    ensures OnPath(nodes, info, home, root, k)
  {
    hide NodeOk;
  }

  /** The child between the keys around `k` is the next node of the path. */
  lemma ChildOnPath(nodes: Nodes, info: Infos, home: Home, root: Id, x: Id, k: int, pos: nat)
    requires Linked(nodes, info, home, root) && OnPath(nodes, info, home, x, k) && !nodes[x].leaf
    requires pos <= |nodes[x].values|
    requires LeftOf(nodes[x].values, pos, info[x].lo) < k <= RightOf(nodes[x].values, pos, info[x].hi)
    ensures pos < |nodes[x].children| && OnPath(nodes, info, home, nodes[x].children[pos], k)
    ensures info[nodes[x].children[pos]].level < info[x].level
  {
    assert NodeOk(nodes, info, home, root, x) && ChildOk(nodes, info, x, pos);
    var c := nodes[x].children[pos];
    forall y | y in info && info[y].level == info[c].level && Covers(info[y], k) ensures y == c {
      OnlyOneChild(nodes, info, home, root, x, k, pos, y);
    }
    if k in home && info[home[k]].level > info[c].level { HigherKey(nodes, info, home, root, x, k, pos); }
  }

  lemma OnlyOneChild(nodes: Nodes, info: Infos, home: Home, root: Id, x: Id, k: int, pos: nat, y: Id)
    requires Linked(nodes, info, home, root) && OnPath(nodes, info, home, x, k) && !nodes[x].leaf
    requires pos <= |nodes[x].values|
    requires LeftOf(nodes[x].values, pos, info[x].lo) < k <= RightOf(nodes[x].values, pos, info[x].hi)
    requires y in nodes && info[y].level == info[x].level - 1 && Covers(info[y], k)
    ensures pos < |nodes[x].children| && y == nodes[x].children[pos]
  {
    assert NodeOk(nodes, info, home, root, y) && NodeOk(nodes, info, home, root, x);
    assert y != root;
    var z, i := nodes[y].parent, nodes[y].position;
    assert NodeOk(nodes, info, home, root, z) && ChildOk(nodes, info, z, i);
    assert i > 0 ==> info[z].lo < nodes[z].values[i - 1];
    assert i < |nodes[z].values| ==> nodes[z].values[i] < info[z].hi;
    assert z == x;
    SamePlace(nodes[x].values, info[x].lo, info[x].hi, k, pos, i);
  }

  /** A key has only one place among the keys of a node. */
  lemma SamePlace(v: seq<int>, lo: int, hi: int, k: int, i: nat, j: nat)
    requires Increasing(v) && i <= |v| && j <= |v|
    requires LeftOf(v, i, lo) < k <= RightOf(v, i, hi) && LeftOf(v, j, lo) < k <= RightOf(v, j, hi)
    ensures i == j
  {
  }

  lemma HigherKey(nodes: Nodes, info: Infos, home: Home, root: Id, x: Id, k: int, pos: nat)
    requires Linked(nodes, info, home, root) && OnPath(nodes, info, home, x, k) && !nodes[x].leaf
    requires pos <= |nodes[x].values|
    requires LeftOf(nodes[x].values, pos, info[x].lo) < k <= RightOf(nodes[x].values, pos, info[x].hi)
    requires k in home && home[k] in info && info[home[k]].level >= info[x].level
    ensures RightOf(nodes[x].values, pos, info[x].hi) == k
  {
    var y := home[k];
    assert NodeOk(nodes, info, home, root, y) && NodeOk(nodes, info, home, root, x);
    var v := nodes[y].values;
    var j :| 0 <= j < |v| && v[j] == k;
    if info[y].level == info[x].level {
      assert y == x;
    }
  }

  /** At a leaf of the path, `k` is stored exactly when it is the next key at or after its position. */
  lemma FoundAtLeaf(nodes: Nodes, info: Infos, home: Home, root: Id, x: Id, k: int, pos: nat)
    requires Linked(nodes, info, home, root) && OnPath(nodes, info, home, x, k) && nodes[x].leaf
    requires pos <= |nodes[x].values|
    requires LeftOf(nodes[x].values, pos, info[x].lo) < k <= RightOf(nodes[x].values, pos, info[x].hi)
    ensures k in home ==> RightOf(nodes[x].values, pos, info[x].hi) == k
  {
    if k in home {
      var y := home[k];
      assert NodeOk(nodes, info, home, root, y) && NodeOk(nodes, info, home, root, x);
      var v := nodes[y].values;
      var j :| 0 <= j < |v| && v[j] == k;
      if info[y].level == 0 {
        assert y == x;
      }
    }
  }

  /** Every node that covers `k` is on the path to it. */
  lemma {:induction false} CoveredOnPath(nodes: Nodes, info: Infos, home: Home, root: Id, x: Id, k: int)
    requires Linked(nodes, info, home, root) && x in nodes && x in info && Covers(info[x], k) && -1 < k < TWO_64
    ensures OnPath(nodes, info, home, x, k)
    decreases info[root].level - info[x].level
  {
    hide OnPath;
    if x == root {
      RootOnPath(nodes, info, home, root, k);
    } else {
      assert NodeOk(nodes, info, home, root, x);
      var z, i := nodes[x].parent, nodes[x].position;
      assert NodeOk(nodes, info, home, root, z) && ChildOk(nodes, info, z, i);
      assert i > 0 ==> info[z].lo < nodes[z].values[i - 1];
      assert i < |nodes[z].values| ==> nodes[z].values[i] < info[z].hi;
      CoveredOnPath(nodes, info, home, root, z, k);
      ChildOnPath(nodes, info, home, root, z, k, i);
    }
  }

  /** No key lies strictly between the two values around a position of a leaf. */
  lemma NothingBetween(nodes: Nodes, info: Infos, home: Home, root: Id, x: Id, pos: nat)
    requires Linked(nodes, info, home, root) && x in nodes && x in info && nodes[x].leaf && pos <= |nodes[x].values|
    ensures forall k | k in home && LeftOf(nodes[x].values, pos, info[x].lo) < k ::
              RightOf(nodes[x].values, pos, info[x].hi) <= k
    ensures LeftOf(nodes[x].values, pos, info[x].lo) < RightOf(nodes[x].values, pos, info[x].hi)
  {
    hide OnPath;
    NodeKeys(nodes, info, home, root, x);
    var v := nodes[x].values;
    assert pos > 0 ==> info[x].lo < v[pos - 1];
    assert pos < |v| ==> v[pos] < info[x].hi;
    forall k | k in home && LeftOf(v, pos, info[x].lo) < k ensures RightOf(v, pos, info[x].hi) <= k {
      KeyInTree(nodes, info, home, root, k);
      if k <= RightOf(v, pos, info[x].hi) {
        CoveredOnPath(nodes, info, home, root, x, k);
        FoundAtLeaf(nodes, info, home, root, x, k, pos);
      }
    }
  }

  lemma KeyInTree(nodes: Nodes, info: Infos, home: Home, root: Id, k: int)
    requires Linked(nodes, info, home, root) && k in home
    ensures -1 < k < TWO_64
  {
    hide NodeOk;
    var v := nodes[home[k]].values;
    var j :| 0 <= j < |v| && v[j] == k;
    InTree(nodes, info, home, root, home[k], j);
  }

  /** `w` is the key after `v`. */
  ghost predicate Follows(home: Home, v: int, w: int) {
    v < w && w in home && forall k | k in home && v < k :: w <= k
  }

  ghost predicate NoneAbove(home: Home, v: int) {
    forall k | k in home :: k <= v
  }

  /** `linear_search_plain_compare`: the first value not less than `k`. */
  method LowerBound(values: seq<int>, k: int, ghost lo: int, ghost hi: int) returns (pos: nat)
    requires Increasing(values) && lo < k <= hi
    ensures pos <= |values| && LeftOf(values, pos, lo) < k <= RightOf(values, pos, hi)
  {
    pos := 0;
    while pos < |values| && values[pos] < k
      invariant pos <= |values| && LeftOf(values, pos, lo) < k
    {
      pos := pos + 1;
    }
  }

  // ----- a tree of one leaf -----

  /** A leaf that is the root is the only node. */
  lemma LeafRootAlone(nodes: Nodes, info: Infos, home: Home, root: Id)
    requires Linked(nodes, info, home, root) && nodes[root].leaf
    ensures nodes.Keys == {root} && info.Keys == {root} && (forall k | k in home :: home[k] == root)
  {
    assert NodeOk(nodes, info, home, root, root);
    forall id | id in nodes ensures id == root { }
  }

  function Alone(n: Node, id: Id, maxCount: nat): (m: Nodes) {
    map[id := n.(maxCount := maxCount)]
  }

  /** A leaf root may be replaced by a bigger copy of itself. */
  lemma RegrowKeeps(nodes: Nodes, info: Infos, home: Home, root: Id, id: Id, mc: nat)
    requires Linked(nodes, info, home, root) && nodes[root].leaf && id != NONE
    ensures var h: Home := map k | k in home :: id;
              h.Keys == home.Keys && Linked(Alone(nodes[root], id, mc), map[id := info[root]], h, id)
  {
    LeafRootAlone(nodes, info, home, root);
    assert NodeOk(nodes, info, home, root, root);
    var m: Nodes, f: Infos, h: Home := Alone(nodes[root], id, mc), map[id := info[root]], map k | k in home :: id;
    assert NodeOk(m, f, h, id, id);
  }

  lemma NewRootLinked(id: Id, mc: nat)
    requires id != NONE
    ensures Linked(map[id := Node(true, [], [], NONE, 0, mc)], map[id := Info(0, -1, TWO_64)], map[], id)
  {
    var m: Nodes, f: Infos, h: Home := map[id := Node(true, [], [], NONE, 0, mc)], map[id := Info(0, -1, TWO_64)],
        map[];
    assert NodeOk(m, f, h, id, id);
  }
}
