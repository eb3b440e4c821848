/** Splitting a node: the inverse of merging two neighbours. */
module BTreeSplit {
  import opened Hashing
  import opened BTreeShape

  function With<T>(s: seq<T>, i: nat, x: T): (r: seq<T>)
    requires i <= |s|
    ensures |r| == |s| + 1
    ensures forall j | 0 <= j < |r| :: r[j] == if j < i then s[j] else if j == i then x else s[j - 1]
  {
    s[..i] + [x] + s[i..]
  }

  /** `l` is child `p` of `q`; `k` is one of its values and `r` a new node. */
  ghost predicate CanSplit(nodes: Nodes, info: Infos, q: Id, p: nat, l: Id, k: nat, r: Id) {
    && q in nodes && l in nodes && q in info && l in info && q != l
    && !nodes[q].leaf && p <= |nodes[q].values| && p < |nodes[q].children| && nodes[q].children[p] == l
    && k < |nodes[l].values| && (nodes[l].leaf || k < |nodes[l].children|)
    && nodes[l].parent == q && nodes[l].position == p
    && r !in nodes && r !in info && r != NONE
  }

  function LeftPart(n: Node, k: nat): (m: Node)
    requires k < |n.values| && (n.leaf || k < |n.children|)
  {
    n.(values := n.values[..k], children := if n.leaf then [] else n.children[..k + 1])
  }

  function RightPart(n: Node, k: nat, maxCount: nat): (m: Node)
    requires k < |n.values| && (n.leaf || k < |n.children|)
  {
    Node(n.leaf, n.values[k + 1..], if n.leaf then [] else n.children[k + 1..], n.parent, n.position + 1, maxCount)
  }

  /** Node `id` after `l->split(r)` at value `k`. */
  function SplitNode(nodes: Nodes, q: Id, p: nat, l: Id, k: nat, r: Id, maxCount: nat, id: Id): (n: Node)
    requires q in nodes && l in nodes && (id in nodes || id == r)
    requires p <= |nodes[q].values| && p < |nodes[q].children|
    requires k < |nodes[l].values| && (nodes[l].leaf || k < |nodes[l].children|)
  {
    if id == r then RightPart(nodes[l], k, maxCount)
    else
      var n := nodes[id];
      if id == l then LeftPart(n, k)
      else if id == q then n.(values := With(n.values, p, nodes[l].values[k]), children := With(n.children, p + 1, r))
      else if n.parent == l && n.position > k then n.(parent := r, position := n.position - k - 1)
      else if n.parent == q && n.position > p then n.(position := n.position + 1)
      else n
  }

  function Split(nodes: Nodes, q: Id, p: nat, l: Id, k: nat, r: Id, maxCount: nat): (m: Nodes)
    requires q in nodes && l in nodes
    requires p <= |nodes[q].values| && p < |nodes[q].children|
    requires k < |nodes[l].values| && (nodes[l].leaf || k < |nodes[l].children|)
  {
    map id | id in nodes.Keys + {r} :: SplitNode(nodes, q, p, l, k, r, maxCount, id)
  }

  ghost function SplitInfo(info: Infos, nodes: Nodes, l: Id, k: nat, r: Id): (f: Infos)
    requires l in info && l in nodes && k < |nodes[l].values|
  {
    var d := nodes[l].values[k];
    info[l := Info(info[l].level, info[l].lo, d)][r := Info(info[l].level, d, info[l].hi)]
  }

  ghost function SplitHome(home: Home, nodes: Nodes, q: Id, l: Id, k: nat, r: Id): (h: Home)
    requires l in nodes && k < |nodes[l].values|
  {
    var d := nodes[l].values[k];
    map x | x in home :: if home[x] == l && x > d then r else if x == d then q else home[x]
  }

  lemma LeftKeys(v: seq<int>, k: nat, lo: int, hi: int)
    requires Increasing(v) && Inside(v, lo, hi) && k < |v|
    ensures Increasing(v[..k]) && Inside(v[..k], lo, v[k]) && lo < v[k]
  {
  }

  lemma RightKeys(v: seq<int>, k: nat, lo: int, hi: int)
    requires Increasing(v) && Inside(v, lo, hi) && k < |v|
    ensures Increasing(v[k + 1..]) && Inside(v[k + 1..], v[k], hi) && v[k] < hi
  {
    var w := v[k + 1..];
    assert forall i | 0 <= i < |w| :: w[i] == v[k + 1 + i];
  }

  lemma WithKeys(v: seq<int>, p: nat, x: int, lo: int, hi: int)
    requires Increasing(v) && Inside(v, lo, hi) && lo < hi && p <= |v| && LeftOf(v, p, lo) < x < RightOf(v, p, hi)
    ensures Increasing(With(v, p, x)) && Inside(With(v, p, x), lo, hi)
  {
    var w := With(v, p, x);
    forall i, j | 0 <= i < j < |w| ensures w[i] < w[j] {
      assert p > 0 ==> forall a | 0 <= a < p :: v[a] <= v[p - 1];
      assert p < |v| ==> forall a | p <= a < |v| :: v[p] <= v[a];
    }
    forall i | 0 <= i < |w| ensures lo < w[i] < hi {
      assert p > 0 ==> lo < v[p - 1];
      assert p < |v| ==> v[p] < hi;
    }
  }

  lemma SplitLeft(nodes: Nodes, info: Infos, home: Home, root: Id, q: Id, p: nat, l: Id, k: nat, r: Id, mc: nat)
    requires Linked(nodes, info, home, root) && CanSplit(nodes, info, q, p, l, k, r)
    ensures var m := Split(nodes, q, p, l, k, r, mc); var f := SplitInfo(info, nodes, l, k, r);
              var h := SplitHome(home, nodes, q, l, k, r);
            SizeOk(m[l], f[l]) && KeysOk(m[l], f[l]) && HomeOk(m, h, l)
  {
    assert NodeOk(nodes, info, home, root, l);
    LeftKeys(nodes[l].values, k, info[l].lo, info[l].hi);
  }

  lemma SplitRight(nodes: Nodes, info: Infos, home: Home, root: Id, q: Id, p: nat, l: Id, k: nat, r: Id, mc: nat)
    requires Linked(nodes, info, home, root) && CanSplit(nodes, info, q, p, l, k, r)
    ensures var m := Split(nodes, q, p, l, k, r, mc); var f := SplitInfo(info, nodes, l, k, r);
              var h := SplitHome(home, nodes, q, l, k, r);
            SizeOk(m[r], f[r]) && KeysOk(m[r], f[r]) && HomeOk(m, h, r)
  {
    assert NodeOk(nodes, info, home, root, l);
    RightKeys(nodes[l].values, k, info[l].lo, info[l].hi);
  }

  lemma SplitParent(nodes: Nodes, info: Infos, home: Home, root: Id, q: Id, p: nat, l: Id, k: nat, r: Id, mc: nat)
    requires Linked(nodes, info, home, root) && CanSplit(nodes, info, q, p, l, k, r)
    ensures var m := Split(nodes, q, p, l, k, r, mc); var f := SplitInfo(info, nodes, l, k, r);
              var h := SplitHome(home, nodes, q, l, k, r);
            SizeOk(m[q], f[q]) && KeysOk(m[q], f[q]) && HomeOk(m, h, q)
  {
    hide StoredOk, RootOk, LinkOk;
    assert NodeOk(nodes, info, home, root, l) && NodeOk(nodes, info, home, root, q) && ChildOk(nodes, info, q, p);
    assert Inside(nodes[l].values, info[l].lo, info[l].hi);
    WithKeys(nodes[q].values, p, nodes[l].values[k], info[q].lo, info[q].hi);
  }

  lemma SplitOther(nodes: Nodes, info: Infos, home: Home, root: Id, q: Id, p: nat, l: Id, k: nat, r: Id, mc: nat,
      id: Id)
    requires Linked(nodes, info, home, root) && CanSplit(nodes, info, q, p, l, k, r)
    requires id in nodes && id in info && id != l && id != q
    ensures var m := Split(nodes, q, p, l, k, r, mc); var f := SplitInfo(info, nodes, l, k, r);
              var h := SplitHome(home, nodes, q, l, k, r);
            && SizeOk(m[id], f[id]) && KeysOk(m[id], f[id]) && HomeOk(m, h, id)
            && m[id].children == nodes[id].children
  {
    assert NodeOk(nodes, info, home, root, id) && NodeOk(nodes, info, home, root, l);
  }

  lemma SplitLeftChildren(nodes: Nodes, info: Infos, home: Home, root: Id, q: Id, p: nat, l: Id, k: nat, r: Id,
      mc: nat, i: nat)
    requires Linked(nodes, info, home, root) && CanSplit(nodes, info, q, p, l, k, r) && !nodes[l].leaf && i <= k
    ensures ChildOk(Split(nodes, q, p, l, k, r, mc), SplitInfo(info, nodes, l, k, r), l, i)
  {
    hide KeysOk, HomeOk, StoredOk, RootOk, LinkOk;
    assert NodeOk(nodes, info, home, root, l) && ChildOk(nodes, info, l, i) && ChildOk(nodes, info, q, p) &&
        NodeOk(nodes, info, home, root, q);
    var c := nodes[l].children[i];
    assert c != l && c != q;
  }

  lemma SplitRightChildren(nodes: Nodes, info: Infos, home: Home, root: Id, q: Id, p: nat, l: Id, k: nat, r: Id,
      mc: nat, i: nat)
    requires Linked(nodes, info, home, root) && CanSplit(nodes, info, q, p, l, k, r) && !nodes[l].leaf
    requires i < |nodes[l].children| - k - 1
    ensures r in Split(nodes, q, p, l, k, r, mc) && i < |Split(nodes, q, p, l, k, r, mc)[r].children|
    ensures ChildOk(Split(nodes, q, p, l, k, r, mc), SplitInfo(info, nodes, l, k, r), r, i)
  {
    hide KeysOk, HomeOk, StoredOk, RootOk, LinkOk, Split;
    var j := i + k + 1;
    assert NodeOk(nodes, info, home, root, l) && ChildOk(nodes, info, l, j) && ChildOk(nodes, info, q, p) &&
        NodeOk(nodes, info, home, root, q);
    var c := nodes[l].children[j];
    assert c != l && c != q;
    SplitAt(nodes, q, p, l, k, r, mc, r);
    SplitAt(nodes, q, p, l, k, r, mc, c);
  }

  lemma SplitParentChildren(nodes: Nodes, info: Infos, home: Home, root: Id, q: Id, p: nat, l: Id, k: nat, r: Id,
      mc: nat, i: nat)
    requires Linked(nodes, info, home, root) && CanSplit(nodes, info, q, p, l, k, r) && i <= |nodes[q].children|
    ensures q in Split(nodes, q, p, l, k, r, mc) && i < |Split(nodes, q, p, l, k, r, mc)[q].children|
    ensures ChildOk(Split(nodes, q, p, l, k, r, mc), SplitInfo(info, nodes, l, k, r), q, i)
  {
    hide KeysOk, HomeOk, StoredOk, RootOk, LinkOk, Split;
    assert NodeOk(nodes, info, home, root, q) && ChildOk(nodes, info, q, p);
    SplitAt(nodes, q, p, l, k, r, mc, q);
    var m, f := Split(nodes, q, p, l, k, r, mc), SplitInfo(info, nodes, l, k, r);
    if i == p {
      SplitAt(nodes, q, p, l, k, r, mc, l);
      assert m[q].children[i] == l;
    } else if i == p + 1 {
      SplitAt(nodes, q, p, l, k, r, mc, r);
      assert m[q].children[i] == r;
    } else {
      var j := if i <= p then i else i - 1;
      assert ChildOk(nodes, info, q, j);
      var c := nodes[q].children[j];
      SplitAt(nodes, q, p, l, k, r, mc, c);
      assert c != q && c != l && m[q].children[i] == c;
    }
  }

  lemma SplitOtherChildren(nodes: Nodes, info: Infos, home: Home, root: Id, q: Id, p: nat, l: Id, k: nat, r: Id,
      mc: nat, id: Id, i: nat)
    requires Linked(nodes, info, home, root) && CanSplit(nodes, info, q, p, l, k, r)
    requires id in nodes && id in info && id != l && id != q && i < |nodes[id].children|
    ensures ChildOk(Split(nodes, q, p, l, k, r, mc), SplitInfo(info, nodes, l, k, r), id, i)
  {
    hide KeysOk, HomeOk, StoredOk, RootOk, LinkOk, SizeOk;
    assert NodeOk(nodes, info, home, root, id) && ChildOk(nodes, info, id, i);
    var c := nodes[id].children[i];
    assert c != l;
  }

  lemma SplitLink(nodes: Nodes, info: Infos, home: Home, root: Id, q: Id, p: nat, l: Id, k: nat, r: Id, mc: nat, id: Id)
    requires Linked(nodes, info, home, root) && CanSplit(nodes, info, q, p, l, k, r)
    requires l != root && (id in nodes || id == r)
    requires r != root
    ensures LinkOk(Split(nodes, q, p, l, k, r, mc), root, id)
  {
    hide SizeOk, KeysOk, HomeOk, StoredOk;
    if id == r {
      assert With(nodes[q].children, p + 1, r)[p + 1] == r;
    } else {
      assert NodeOk(nodes, info, home, root, id);
      if id != root { SplitLinkOld(nodes, info, home, root, q, p, l, k, r, mc, id); }
    }
  }

  lemma SplitLinkOld(nodes: Nodes, info: Infos, home: Home, root: Id, q: Id, p: nat, l: Id, k: nat, r: Id, mc: nat,
      id: Id)
    requires Linked(nodes, info, home, root) && CanSplit(nodes, info, q, p, l, k, r) && id in nodes && id != root
    requires nodes[id].parent in nodes
    ensures LinkOk(Split(nodes, q, p, l, k, r, mc), root, id)
  {
    hide Linked, Split, LinkOk;
    ParentOf(nodes, info, home, root, id);
    ParentOf(nodes, info, home, root, l);
    ChildCount(nodes, info, home, root, l);
    SplitLinkCase(nodes, info, root, q, p, l, k, r, mc, id);
  }

  /** A node below the root is where its parent says. */
  lemma ParentOf(nodes: Nodes, info: Infos, home: Home, root: Id, id: Id)
    requires Linked(nodes, info, home, root) && id in nodes && nodes[id].parent in nodes
    ensures var x, i := nodes[id].parent, nodes[id].position;
            i < |nodes[x].children| && nodes[x].children[i] == id && id in info && x in info &&
                info[id].level == info[x].level - 1
  {
    assert NodeOk(nodes, info, home, root, id);
    assert NodeOk(nodes, info, home, root, nodes[id].parent) &&
        ChildOk(nodes, info, nodes[id].parent, nodes[id].position);
  }

  lemma SplitLinkCase(nodes: Nodes, info: Infos, root: Id, q: Id, p: nat, l: Id, k: nat, r: Id, mc: nat, id: Id)
    requires CanSplit(nodes, info, q, p, l, k, r) && id in nodes && id != root
    requires var x, i := nodes[id].parent, nodes[id].position;
             x in nodes && x in info && id in info && i < |nodes[x].children| && nodes[x].children[i] == id &&
                 info[id].level == info[x].level - 1
    requires info[l].level == info[q].level - 1
    requires |nodes[l].children| == if nodes[l].leaf then 0 else |nodes[l].values| + 1
    ensures LinkOk(Split(nodes, q, p, l, k, r, mc), root, id)
  {
    hide Split;
    var x, i := nodes[id].parent, nodes[id].position;
    SplitAt(nodes, q, p, l, k, r, mc, id);
    SplitAt(nodes, q, p, l, k, r, mc, if x == l && i > k then r else x);
    if x == l {
      assert id != q && id != l;
      SplitChildren(nodes[l], k, i);
    } else if x == q {
      assert With(nodes[q].children, p + 1, r)[if i <= p then i else i + 1] == nodes[q].children[i];
    }
  }

  lemma SplitAt(nodes: Nodes, q: Id, p: nat, l: Id, k: nat, r: Id, mc: nat, id: Id)
    requires q in nodes && l in nodes && (id in nodes || id == r)
    requires p <= |nodes[q].values| && p < |nodes[q].children|
    requires k < |nodes[l].values| && (nodes[l].leaf || k < |nodes[l].children|)
    ensures id in Split(nodes, q, p, l, k, r, mc)
    ensures Split(nodes, q, p, l, k, r, mc)[id] == SplitNode(nodes, q, p, l, k, r, mc, id)
  {
  }

  lemma SplitChildren(n: Node, k: nat, i: nat)
    requires k < |n.values| && !n.leaf && k < |n.children| && i < |n.children|
    ensures i <= k ==> i < |LeftPart(n, k).children| && LeftPart(n, k).children[i] == n.children[i]
    ensures i > k ==> forall mc: nat ::
              i - k - 1 < |RightPart(n, k, mc).children| && RightPart(n, k, mc).children[i - k - 1] == n.children[i]
  {
  }

  /** Where each value goes. */
  lemma SplitKeepsValue(nodes: Nodes, q: Id, p: nat, l: Id, k: nat, r: Id, mc: nat, id: Id, j: nat)
    requires q in nodes && l in nodes && l != q && r !in nodes
    requires p <= |nodes[q].values| && p < |nodes[q].children|
    requires k < |nodes[l].values| && (nodes[l].leaf || k < |nodes[l].children|)
    requires id in nodes && j < |nodes[id].values|
    ensures var x := nodes[id].values[j]; var m := Split(nodes, q, p, l, k, r, mc);
            x in m[if id != l then id else if j < k then l else if j == k then q else r].values
  {
    var m := Split(nodes, q, p, l, k, r, mc);
    var v := nodes[l].values;
    if id == l {
      if j < k {
        assert v[..k][j] == v[j];
      } else if j == k {
        assert With(nodes[q].values, p, v[k])[p] == v[k];
      } else {
        assert v[k + 1..][j - k - 1] == v[j];
      }
    } else if id == q {
      assert With(nodes[q].values, p, v[k])[if j < p then j else j + 1] == nodes[q].values[j];
    }
  }

  lemma SplitStored(nodes: Nodes, info: Infos, home: Home, root: Id, q: Id, p: nat, l: Id, k: nat, r: Id, mc: nat)
    requires Linked(nodes, info, home, root) && CanSplit(nodes, info, q, p, l, k, r)
    ensures StoredOk(Split(nodes, q, p, l, k, r, mc), SplitHome(home, nodes, q, l, k, r))
  {
    hide Split;
    var m, h := Split(nodes, q, p, l, k, r, mc), SplitHome(home, nodes, q, l, k, r);
    assert NodeOk(nodes, info, home, root, l);
    forall x | x in h ensures h[x] in m && x in m[h[x]].values {
      var n := nodes[home[x]].values;
      var j :| 0 <= j < |n| && n[j] == x;
      SplitKeepsValue(nodes, q, p, l, k, r, mc, home[x], j);
      SplitDomain(nodes, q, p, l, k, r, mc);
    }
  }

  lemma SplitDomain(nodes: Nodes, q: Id, p: nat, l: Id, k: nat, r: Id, mc: nat)
    requires q in nodes && l in nodes
    requires p <= |nodes[q].values| && p < |nodes[q].children|
    requires k < |nodes[l].values| && (nodes[l].leaf || k < |nodes[l].children|)
    ensures Split(nodes, q, p, l, k, r, mc).Keys == nodes.Keys + {r}
  {
  }

  lemma SplitNodeKeeps(nodes: Nodes, info: Infos, home: Home, root: Id, q: Id, p: nat, l: Id, k: nat, r: Id,
      mc: nat, id: Id)
    requires Linked(nodes, info, home, root) && CanSplit(nodes, info, q, p, l, k, r) && l != root && r != root
    requires (id in nodes && id in info) || id == r
    ensures NodeOk(Split(nodes, q, p, l, k, r, mc), SplitInfo(info, nodes, l, k, r),
              SplitHome(home, nodes, q, l, k, r), root, id)
  {
    hide SizeOk, KeysOk, HomeOk, LinkOk, ChildOk, Linked;
    var m, f, h := Split(nodes, q, p, l, k, r, mc), SplitInfo(info, nodes, l, k, r), SplitHome(home, nodes, q, l, k, r);
    SplitLink(nodes, info, home, root, q, p, l, k, r, mc, id);
    if id == l {
      SplitLeft(nodes, info, home, root, q, p, l, k, r, mc);
      forall i | 0 <= i < |m[id].children| ensures ChildOk(m, f, id, i) {
        SplitLeftChildren(nodes, info, home, root, q, p, l, k, r, mc, i);
      }
    } else if id == r {
      SplitRight(nodes, info, home, root, q, p, l, k, r, mc);
      forall i | 0 <= i < |m[id].children| ensures ChildOk(m, f, id, i) {
        SplitRightChildren(nodes, info, home, root, q, p, l, k, r, mc, i);
      }
    } else if id == q {
      SplitParent(nodes, info, home, root, q, p, l, k, r, mc);
      forall i | 0 <= i < |m[id].children| ensures ChildOk(m, f, id, i) {
        SplitParentChildren(nodes, info, home, root, q, p, l, k, r, mc, i);
      }
    } else {
      SplitOther(nodes, info, home, root, q, p, l, k, r, mc, id);
      forall i | 0 <= i < |m[id].children| ensures ChildOk(m, f, id, i) {
        SplitOtherChildren(nodes, info, home, root, q, p, l, k, r, mc, id, i);
      }
    }
  }

  /** `split` keeps the tree: the same keys, one node more. */
  lemma SplitKeeps(nodes: Nodes, info: Infos, home: Home, root: Id, q: Id, p: nat, l: Id, k: nat, r: Id, mc: nat)
    requires Linked(nodes, info, home, root) && CanSplit(nodes, info, q, p, l, k, r) && l != root
    ensures Linked(Split(nodes, q, p, l, k, r, mc), SplitInfo(info, nodes, l, k, r),
              SplitHome(home, nodes, q, l, k, r), root)
    ensures SplitHome(home, nodes, q, l, k, r).Keys == home.Keys
  {
    hide SizeOk, KeysOk, HomeOk, LinkOk, ChildOk, NodeOk, Split;
    var m, f, h := Split(nodes, q, p, l, k, r, mc), SplitInfo(info, nodes, l, k, r), SplitHome(home, nodes, q, l, k, r);
    SplitDomain(nodes, q, p, l, k, r, mc);
    SplitStored(nodes, info, home, root, q, p, l, k, r, mc);
    SplitLevels(nodes, info, home, root, q, p, l, k, r);
    forall id | id in m ensures NodeOk(m, f, h, root, id) {
      SplitNodeKeeps(nodes, info, home, root, q, p, l, k, r, mc, id);
    }
  }

  lemma SplitLevels(nodes: Nodes, info: Infos, home: Home, root: Id, q: Id, p: nat, l: Id, k: nat, r: Id)
    requires Linked(nodes, info, home, root) && CanSplit(nodes, info, q, p, l, k, r) && l != root
    ensures var f := SplitInfo(info, nodes, l, k, r);
            && f[root].lo == -1 && f[root].hi == TWO_64
            && forall id | id in f && id != root :: f[id].level < f[root].level
  {
    hide NodeOk, StoredOk;
  }
}
