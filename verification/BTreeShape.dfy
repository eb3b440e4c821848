/**
 * The nodes of a B-tree as an arena of records, linked both ways by node numbers, and the local
 * invariant that makes them one search tree with all leaves at the same depth.
 */
module BTreeShape {
  import opened Hashing

  type Id = nat

  /** No node: the parent of the root. */
  const NONE: Id := 0

  datatype Node = Node(leaf: bool, values: seq<int>, children: seq<Id>, parent: Id, position: nat, maxCount: nat)

  /** What the proofs know of a node: its height above the leaves and the open interval of its keys. */
  datatype Info = Info(level: nat, lo: int, hi: int)

  type Nodes = map<Id, Node>
  type Infos = map<Id, Info>
  /** The node that holds each key. */
  type Home = map<int, Id>

  predicate Increasing(values: seq<int>) {
    forall i, j | 0 <= i < j < |values| :: values[i] < values[j]
  }

  predicate Inside(values: seq<int>, lo: int, hi: int) {
    forall i | 0 <= i < |values| :: lo < values[i] < hi
  }

  /** The bound to the left of child `i`. */
  function LeftOf(values: seq<int>, i: nat, lo: int): (b: int)
    requires i <= |values|
  {
    if i == 0 then lo else values[i - 1]
  }

  /** The bound to the right of child `i`. */
  function RightOf(values: seq<int>, i: nat, hi: int): (b: int)
    requires i <= |values|
  {
    if i == |values| then hi else values[i]
  }

  ghost predicate SizeOk(n: Node, f: Info) {
    (n.leaf <==> f.level == 0) && |n.children| == if n.leaf then 0 else |n.values| + 1
  }

  ghost predicate KeysOk(n: Node, f: Info) {
    Increasing(n.values) && Inside(n.values, f.lo, f.hi) && f.lo < f.hi
  }

  /** Child `i` of a node points back at it, is one level lower and has the interval between the neighbouring keys. */
  ghost predicate ChildOk(nodes: Nodes, info: Infos, id: Id, i: nat)
    requires id in nodes && id in info && i < |nodes[id].children|
  {
    var n, f, c := nodes[id], info[id], nodes[id].children[i];
    && i <= |n.values| && f.level > 0
    && c in nodes && c in info
    && nodes[c].parent == id && nodes[c].position == i
    && info[c] == Info(f.level - 1, LeftOf(n.values, i, f.lo), RightOf(n.values, i, f.hi))
  }

  /** Every node but the root is a child of its parent. */
  ghost predicate LinkOk(nodes: Nodes, root: Id, id: Id)
    requires id in nodes
  {
    var n := nodes[id];
    if id == root then n.parent == NONE
    else n.parent in nodes && n.position < |nodes[n.parent].children| && nodes[n.parent].children[n.position] == id
  }

  ghost predicate HomeOk(nodes: Nodes, home: Home, id: Id)
    requires id in nodes
  {
    forall i | 0 <= i < |nodes[id].values| :: nodes[id].values[i] in home && home[nodes[id].values[i]] == id
  }

  ghost predicate NodeOk(nodes: Nodes, info: Infos, home: Home, root: Id, id: Id)
    requires id in nodes && id in info
  {
    && SizeOk(nodes[id], info[id]) && KeysOk(nodes[id], info[id])
    && (forall i {:trigger ChildOk(nodes, info, id, i)} | 0 <= i < |nodes[id].children| :: ChildOk(nodes, info, id, i))
    && LinkOk(nodes, root, id) && HomeOk(nodes, home, id)
  }

  ghost predicate RootOk(nodes: Nodes, info: Infos, root: Id) {
    && NONE !in nodes && root in nodes && root in info
    && info[root].lo == -1 && info[root].hi == TWO_64
    && forall id | id in info && id != root :: info[id].level < info[root].level
  }

  ghost predicate StoredOk(nodes: Nodes, home: Home) {
    forall k | k in home :: home[k] in nodes && k in nodes[home[k]].values
  }

  /** One search tree: links, depth, intervals and order. */
  ghost predicate Linked(nodes: Nodes, info: Infos, home: Home, root: Id) {
    && nodes.Keys == info.Keys
    && RootOk(nodes, info, root) && StoredOk(nodes, home)
    && forall id {:trigger NodeOk(nodes, info, home, root, id)} | id in nodes :: NodeOk(nodes, info, home, root, id)
  }

  // ----- merging two neighbours -----

  function Without<T>(s: seq<T>, i: nat): (r: seq<T>)
    requires i < |s|
    ensures |r| == |s| - 1
    ensures forall j | 0 <= j < |r| :: r[j] == if j < i then s[j] else s[j + 1]
  {
    s[..i] + s[i + 1..]
  }

  /** `l` and `r` are children `p` and `p + 1` of `q`. */
  ghost predicate Neighbours(nodes: Nodes, q: Id, p: nat, l: Id, r: Id) {
    && q in nodes && l in nodes && r in nodes
    && !nodes[q].leaf && p < |nodes[q].values| && p + 1 < |nodes[q].children|
    && nodes[q].children[p] == l && nodes[q].children[p + 1] == r
  }

  /** Node `id` after `l->merge(r)`. */
  function MergedNode(nodes: Nodes, q: Id, p: nat, l: Id, r: Id, id: Id): (n: Node)
    requires q in nodes && l in nodes && r in nodes && id in nodes
    requires p < |nodes[q].values| && p + 1 < |nodes[q].children|
  {
    var n := nodes[id];
    if id == l then n.(values := n.values + [nodes[q].values[p]] + nodes[r].values,
        children := n.children + nodes[r].children)
    else if id == q then n.(values := Without(n.values, p), children := Without(n.children, p + 1))
    else if n.parent == r then n.(parent := l, position := n.position + |nodes[l].values| + 1)
    else if n.parent == q && n.position > p + 1 then n.(position := n.position - 1)
    else n
  }

  function Merged(nodes: Nodes, q: Id, p: nat, l: Id, r: Id): (m: Nodes)
    requires q in nodes && l in nodes && r in nodes
    requires p < |nodes[q].values| && p + 1 < |nodes[q].children|
  {
    map id | id in nodes && id != r :: MergedNode(nodes, q, p, l, r, id)
  }

  ghost function MergedInfo(info: Infos, l: Id, r: Id): (f: Infos)
    requires l in info && r in info
  {
    map id | id in info && id != r :: if id == l then Info(info[l].level, info[l].lo, info[r].hi) else info[id]
  }

  ghost function MergedHome(home: Home, nodes: Nodes, q: Id, p: nat, l: Id, r: Id): (h: Home)
    requires q in nodes && p < |nodes[q].values|
  {
    map k | k in home :: if home[k] == r || k == nodes[q].values[p] then l else home[k]
  }

  /** What the tree says about two neighbours. */
  ghost predicate Siblings(nodes: Nodes, info: Infos, q: Id, p: nat, l: Id, r: Id) {
    && Neighbours(nodes, q, p, l, r) && q in info && l in info && r in info
    && l != r && l != q && r != q
    && nodes[l].parent == q && nodes[r].parent == q && nodes[l].position == p && nodes[r].position == p + 1
    && info[l].level == info[r].level == info[q].level - 1
    && info[l].hi == nodes[q].values[p] == info[r].lo
    && nodes[l].leaf == nodes[r].leaf
  }

  lemma NeighbourFacts(nodes: Nodes, info: Infos, home: Home, root: Id, q: Id, p: nat, l: Id, r: Id)
    requires Linked(nodes, info, home, root) && Neighbours(nodes, q, p, l, r)
    ensures Siblings(nodes, info, q, p, l, r) && l != root && r != root
  {
    assert NodeOk(nodes, info, home, root, q);
    assert ChildOk(nodes, info, q, p);
    assert ChildOk(nodes, info, q, p + 1);
    assert NodeOk(nodes, info, home, root, l) && NodeOk(nodes, info, home, root, r);
  }

  /** The keys of two neighbours and the one between them. */
  lemma JoinedKeys(a: seq<int>, d: int, b: seq<int>, lo: int, hi: int)
    requires Increasing(a) && Inside(a, lo, d) && Increasing(b) && Inside(b, d, hi) && lo < d < hi
    ensures Increasing(a + [d] + b) && Inside(a + [d] + b, lo, hi)
  {
    var c := a + [d] + b;
    assert forall i | 0 <= i < |a| :: c[i] == a[i];
    assert forall i | |a| < i < |c| :: c[i] == b[i - |a| - 1];
  }

  lemma WithoutKeys(s: seq<int>, i: nat, lo: int, hi: int)
    requires Increasing(s) && Inside(s, lo, hi) && i < |s|
    ensures Increasing(Without(s, i)) && Inside(Without(s, i), lo, hi)
  {
  }

  /** A node that is not one of the three keeps its place in the tree. */
  lemma MergeOther(nodes: Nodes, info: Infos, home: Home, root: Id, q: Id, p: nat, l: Id, r: Id, id: Id)
    requires Linked(nodes, info, home, root) && Siblings(nodes, info, q, p, l, r)
    requires id in nodes && id != l && id != r && id != q
    ensures var m := Merged(nodes, q, p, l, r);
            && SizeOk(m[id], info[id]) && KeysOk(m[id], info[id])
            && HomeOk(m, MergedHome(home, nodes, q, p, l, r), id)
            && m[id].children == nodes[id].children && m[id].values == nodes[id].values
  {
    assert NodeOk(nodes, info, home, root, id);
    assert NodeOk(nodes, info, home, root, q);
  }

  lemma MergeOtherChildren(nodes: Nodes, info: Infos, home: Home, root: Id, q: Id, p: nat, l: Id, r: Id, id: Id, i: nat)
    requires Linked(nodes, info, home, root) && Siblings(nodes, info, q, p, l, r)
    requires id in nodes && id != l && id != r && id != q && i < |nodes[id].children|
    ensures ChildOk(Merged(nodes, q, p, l, r), MergedInfo(info, l, r), id, i)
  {
    hide KeysOk, HomeOk, StoredOk, RootOk, LinkOk, SizeOk;
    assert NodeOk(nodes, info, home, root, id) && ChildOk(nodes, info, id, i);
    var c := nodes[id].children[i];
    assert c != l && c != r;
  }

  lemma MergeLeftChildren(nodes: Nodes, info: Infos, home: Home, root: Id, q: Id, p: nat, l: Id, r: Id, i: nat)
    requires Linked(nodes, info, home, root) && Siblings(nodes, info, q, p, l, r)
    requires i < |nodes[l].children| + |nodes[r].children|
    ensures ChildOk(Merged(nodes, q, p, l, r), MergedInfo(info, l, r), l, i)
  {
    hide KeysOk, HomeOk, StoredOk, RootOk, LinkOk;
    assert NodeOk(nodes, info, home, root, l) && NodeOk(nodes, info, home, root, r);
    var n := |nodes[l].values|;
    if i < |nodes[l].children| {
      assert ChildOk(nodes, info, l, i);
      var c := nodes[l].children[i];
      assert c != l && c != r && c != q;
    } else {
      assert ChildOk(nodes, info, r, i - n - 1);
      var c := nodes[r].children[i - n - 1];
      assert c != l && c != r && c != q;
    }
  }

  lemma MergeParentChildren(nodes: Nodes, info: Infos, home: Home, root: Id, q: Id, p: nat, l: Id, r: Id, i: nat)
    requires Linked(nodes, info, home, root) && Siblings(nodes, info, q, p, l, r)
    requires i < |nodes[q].children| - 1
    ensures ChildOk(Merged(nodes, q, p, l, r), MergedInfo(info, l, r), q, i)
  {
    hide KeysOk, HomeOk, StoredOk, RootOk, LinkOk;
    assert NodeOk(nodes, info, home, root, q);
    var j := if i <= p then i else i + 1;
    assert ChildOk(nodes, info, q, j) && ChildOk(nodes, info, q, p + 1);
    var c := nodes[q].children[j];
    assert c != r && c != q && (c == l <==> j == p);
  }

  lemma MergeLink(nodes: Nodes, info: Infos, home: Home, root: Id, q: Id, p: nat, l: Id, r: Id, id: Id)
    requires Linked(nodes, info, home, root) && Siblings(nodes, info, q, p, l, r)
    requires id in nodes && id != r
    ensures LinkOk(Merged(nodes, q, p, l, r), root, id)
  {
    hide SizeOk, KeysOk, HomeOk, StoredOk;
    assert NodeOk(nodes, info, home, root, id);
    if id != root {
      var x, i := nodes[id].parent, nodes[id].position;
      assert NodeOk(nodes, info, home, root, x) && ChildOk(nodes, info, x, i);
      assert NodeOk(nodes, info, home, root, l);
      ChildCount(nodes, info, home, root, l);
      var m := Merged(nodes, q, p, l, r);
      if x == r {
        ChildCount(nodes, info, home, root, r);
        assert m[l].children[|nodes[l].children| + i] == id;
      } else if x == q {
        assert i != p + 1;
        assert m[q].children[if i <= p then i else i - 1] == id;
      } else if x == l {
        assert m[l].children[i] == id;
      } else {
        assert m[x].children[i] == id;
      }
    }
  }

  lemma ChildCount(nodes: Nodes, info: Infos, home: Home, root: Id, id: Id)
    requires Linked(nodes, info, home, root) && id in nodes
    ensures |nodes[id].children| == if nodes[id].leaf then 0 else |nodes[id].values| + 1
  {
    assert NodeOk(nodes, info, home, root, id);
  }

  lemma MergeLeft(nodes: Nodes, info: Infos, home: Home, root: Id, q: Id, p: nat, l: Id, r: Id)
    requires Linked(nodes, info, home, root) && Siblings(nodes, info, q, p, l, r)
    ensures var m := Merged(nodes, q, p, l, r); var f := MergedInfo(info, l, r);
            SizeOk(m[l], f[l]) && KeysOk(m[l], f[l]) && HomeOk(m, MergedHome(home, nodes, q, p, l, r), l)
  {
    hide StoredOk, RootOk, LinkOk, ChildOk;
    assert NodeOk(nodes, info, home, root, l) && NodeOk(nodes, info, home, root, r) &&
        NodeOk(nodes, info, home, root, q);
    JoinedKeys(nodes[l].values, nodes[q].values[p], nodes[r].values, info[l].lo, info[r].hi);
  }

  lemma MergeParent(nodes: Nodes, info: Infos, home: Home, root: Id, q: Id, p: nat, l: Id, r: Id)
    requires Linked(nodes, info, home, root) && Siblings(nodes, info, q, p, l, r)
    ensures var m := Merged(nodes, q, p, l, r); var f := MergedInfo(info, l, r);
            SizeOk(m[q], f[q]) && KeysOk(m[q], f[q]) && HomeOk(m, MergedHome(home, nodes, q, p, l, r), q)
  {
    hide StoredOk, RootOk, LinkOk, ChildOk;
    assert NodeOk(nodes, info, home, root, q);
    WithoutKeys(nodes[q].values, p, info[q].lo, info[q].hi);
  }

  lemma MergeStored(nodes: Nodes, info: Infos, home: Home, root: Id, q: Id, p: nat, l: Id, r: Id)
    requires Linked(nodes, info, home, root) && Neighbours(nodes, q, p, l, r)
    ensures StoredOk(Merged(nodes, q, p, l, r), MergedHome(home, nodes, q, p, l, r))
  {
    NeighbourFacts(nodes, info, home, root, q, p, l, r);
    var m, h := Merged(nodes, q, p, l, r), MergedHome(home, nodes, q, p, l, r);
    forall k | k in h ensures h[k] in m && k in m[h[k]].values {
      var n := nodes[home[k]].values;
      var j :| 0 <= j < |n| && n[j] == k;
      MergedKeeps(nodes, q, p, l, r, home[k], j);
    }
  }

  /** Where each value goes. */
  lemma MergedKeeps(nodes: Nodes, q: Id, p: nat, l: Id, r: Id, id: Id, j: nat)
    requires Neighbours(nodes, q, p, l, r) && l != r && l != q && r != q
    requires id in nodes && j < |nodes[id].values|
    ensures var k := nodes[id].values[j]; var m := Merged(nodes, q, p, l, r);
            k in m[if id == r || (id == q && j == p) then l else id].values
  {
    var a, d, b := nodes[l].values, nodes[q].values[p], nodes[r].values;
    var c := a + [d] + b;
    if id == l { assert c[j] == a[j]; }
    else if id == r { assert c[|a| + 1 + j] == b[j]; }
    else if id == q && j == p { assert c[|a|] == d; }
    else if id == q { assert Without(nodes[q].values, p)[if j < p then j else j - 1] == nodes[q].values[j]; }
  }

  lemma MergeNodeKeeps(nodes: Nodes, info: Infos, home: Home, root: Id, q: Id, p: nat, l: Id, r: Id, id: Id)
    requires Linked(nodes, info, home, root) && Siblings(nodes, info, q, p, l, r) && id in nodes && id in info
    requires id != r
    ensures NodeOk(Merged(nodes, q, p, l, r), MergedInfo(info, l, r), MergedHome(home, nodes, q, p, l, r), root, id)
  {
    hide SizeOk, KeysOk, HomeOk, LinkOk, ChildOk, Linked;
    var m, f, h := Merged(nodes, q, p, l, r), MergedInfo(info, l, r), MergedHome(home, nodes, q, p, l, r);
    MergeLink(nodes, info, home, root, q, p, l, r, id);
    if id == l {
      MergeLeft(nodes, info, home, root, q, p, l, r);
      forall i | 0 <= i < |m[id].children| ensures ChildOk(m, f, id, i) {
        MergeLeftChildren(nodes, info, home, root, q, p, l, r, i);
      }
    } else if id == q {
      MergeParent(nodes, info, home, root, q, p, l, r);
      forall i | 0 <= i < |m[id].children| ensures ChildOk(m, f, id, i) {
        MergeParentChildren(nodes, info, home, root, q, p, l, r, i);
      }
    } else {
      MergeOther(nodes, info, home, root, q, p, l, r, id);
      forall i | 0 <= i < |m[id].children| ensures ChildOk(m, f, id, i) {
        MergeOtherChildren(nodes, info, home, root, q, p, l, r, id, i);
      }
    }
  }

  /** `merge` keeps the tree: the same keys, one node less. */
  lemma MergeKeeps(nodes: Nodes, info: Infos, home: Home, root: Id, q: Id, p: nat, l: Id, r: Id)
    requires Linked(nodes, info, home, root) && Neighbours(nodes, q, p, l, r)
    ensures Linked(Merged(nodes, q, p, l, r), MergedInfo(info, l, r), MergedHome(home, nodes, q, p, l, r), root)
    ensures MergedHome(home, nodes, q, p, l, r).Keys == home.Keys
  {
    hide SizeOk, KeysOk, HomeOk, LinkOk, ChildOk, NodeOk;
    NeighbourFacts(nodes, info, home, root, q, p, l, r);
    var m, f, h := Merged(nodes, q, p, l, r), MergedInfo(info, l, r), MergedHome(home, nodes, q, p, l, r);
    MergeStored(nodes, info, home, root, q, p, l, r);
    forall id | id in m ensures NodeOk(m, f, h, root, id) {
      MergeNodeKeeps(nodes, info, home, root, q, p, l, r, id);
    }
  }
}
