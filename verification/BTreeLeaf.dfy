/** Inserting and removing single keys. */
module BTreeLeaf {
  import opened Hashing
  import opened BTreeShape
  import opened BTreeSplit

  /** `v` fits between the keys around position `pos` of a node. */
  ghost predicate Fits(nodes: Nodes, info: Infos, id: Id, pos: nat, v: int) {
    && id in nodes && id in info && pos <= |nodes[id].values|
    && LeftOf(nodes[id].values, pos, info[id].lo) < v < RightOf(nodes[id].values, pos, info[id].hi)
  }

  function Inserted(nodes: Nodes, id: Id, pos: nat, v: int): (m: Nodes)
    requires id in nodes && pos <= |nodes[id].values|
  {
    nodes[id := nodes[id].(values := With(nodes[id].values, pos, v))]
  }

  /** A new key in a leaf. */
  lemma InsertKeeps(nodes: Nodes, info: Infos, home: Home, root: Id, id: Id, pos: nat, v: int)
    requires Linked(nodes, info, home, root) && Fits(nodes, info, id, pos, v) && nodes[id].leaf && v !in home
    ensures Linked(Inserted(nodes, id, pos, v), info, home[v := id], root)
  {
    hide NodeOk;
    var m, h := Inserted(nodes, id, pos, v), home[v := id];
    var w := With(nodes[id].values, pos, v);
    assert w[pos] == v;
    forall k | k in h ensures h[k] in m && k in m[h[k]].values {
      if k != v && home[k] == id {
        var j :| 0 <= j < |nodes[id].values| && nodes[id].values[j] == k;
        assert w[if j < pos then j else j + 1] == k;
      }
    }
    forall y | y in m ensures NodeOk(m, info, h, root, y) { InsertNode(nodes, info, home, root, id, pos, v, y); }
  }

  lemma InsertNode(nodes: Nodes, info: Infos, home: Home, root: Id, id: Id, pos: nat, v: int, y: Id)
    requires Linked(nodes, info, home, root) && Fits(nodes, info, id, pos, v) && nodes[id].leaf && v !in home
    requires y in nodes
    ensures NodeOk(Inserted(nodes, id, pos, v), info, home[v := id], root, y)
  {
    var m := Inserted(nodes, id, pos, v);
    assert NodeOk(nodes, info, home, root, y);
    forall i | 0 <= i < |m[y].children| ensures ChildOk(m, info, y, i) { assert ChildOk(nodes, info, y, i); }
    if y == id { WithKeys(nodes[id].values, pos, v, info[id].lo, info[id].hi); }
  }

  function Removed(nodes: Nodes, id: Id, pos: nat): (m: Nodes)
    requires id in nodes && pos < |nodes[id].values|
  {
    nodes[id := nodes[id].(values := Without(nodes[id].values, pos))]
  }

  /** A key leaves a leaf. */
  lemma RemoveKeeps(nodes: Nodes, info: Infos, home: Home, root: Id, id: Id, pos: nat)
    requires Linked(nodes, info, home, root) && id in nodes && nodes[id].leaf && pos < |nodes[id].values|
    ensures Linked(Removed(nodes, id, pos), info, home - {nodes[id].values[pos]}, root)
    ensures nodes[id].values[pos] in home
  {
    hide NodeOk;
    var k0 := nodes[id].values[pos];
    var m, h := Removed(nodes, id, pos), home - {k0};
    var w := Without(nodes[id].values, pos);
    RemovedHome(nodes, info, home, root, id, pos);
    forall k | k in h ensures h[k] in m && k in m[h[k]].values {
      if home[k] == id {
        var j :| 0 <= j < |nodes[id].values| && nodes[id].values[j] == k;
        assert w[if j < pos then j else j - 1] == k;
      }
    }
    forall y | y in m ensures NodeOk(m, info, h, root, y) { RemoveNode(nodes, info, home, root, id, pos, y); }
  }

  lemma RemovedHome(nodes: Nodes, info: Infos, home: Home, root: Id, id: Id, pos: nat)
    requires Linked(nodes, info, home, root) && id in nodes && pos < |nodes[id].values|
    ensures nodes[id].values[pos] in home && home[nodes[id].values[pos]] == id
  {
    assert NodeOk(nodes, info, home, root, id);
  }

  lemma RemoveNode(nodes: Nodes, info: Infos, home: Home, root: Id, id: Id, pos: nat, y: Id)
    requires Linked(nodes, info, home, root) && id in nodes && nodes[id].leaf && pos < |nodes[id].values| && y in nodes
    ensures NodeOk(Removed(nodes, id, pos), info, home - {nodes[id].values[pos]}, root, y)
  {
    var m := Removed(nodes, id, pos);
    assert NodeOk(nodes, info, home, root, y) && NodeOk(nodes, info, home, root, id);
    forall i | 0 <= i < |m[y].children| ensures ChildOk(m, info, y, i) { assert ChildOk(nodes, info, y, i); }
    if y == id { WithoutKeys(nodes[id].values, pos, info[id].lo, info[id].hi); }
  }

  // ----- erasing a key of an internal node: its predecessor takes its place -----

  function Renamed(b: int, k: int, p: int): (r: int) {
    if b == k then p else b
  }

  /** Value `idx` of node `n` becomes the last value of leaf `x`, which loses it. */
  function Replaced(nodes: Nodes, n: Id, idx: nat, x: Id): (m: Nodes)
    requires n in nodes && x in nodes && idx < |nodes[n].values| && |nodes[x].values| > 0
  {
    var last := |nodes[x].values| - 1;
    nodes[n := nodes[n].(values := nodes[n].values[idx := nodes[x].values[last]])][x :=
        nodes[x].(values := nodes[x].values[..last])]
  }

  /** Intervals that ended at the erased key end at its predecessor. */
  ghost function ReplacedInfo(info: Infos, k: int, p: int): (f: Infos) {
    map id | id in info :: Info(info[id].level, Renamed(info[id].lo, k, p), Renamed(info[id].hi, k, p))
  }

  /** The leaf `x` holds the predecessor `p` of the key `k`: every other key below an interval ending at `k` is
      smaller. */
  ghost predicate Precedes(nodes: Nodes, info: Infos, n: Id, idx: nat, x: Id) {
    && n in nodes && x in nodes && n != x && x in info && n in info
    && idx < |nodes[n].values| && !nodes[n].leaf && nodes[x].leaf && |nodes[x].values| > 0
    && info[x].hi == nodes[n].values[idx]
    && var k, p := nodes[n].values[idx], nodes[x].values[|nodes[x].values| - 1];
      && LeftOf(nodes[n].values, idx, info[n].lo) < p
      && (forall y, i | y in nodes && y in info && info[y].hi == k && y != x && 0 <= i < |nodes[y].values| ::
           nodes[y].values[i] < p)
      && (forall y | y in info && y != x && info[y].hi == k :: info[y].lo < p)
  }

  lemma ReplaceKeeps(nodes: Nodes, info: Infos, home: Home, root: Id, n: Id, idx: nat, x: Id)
    requires Linked(nodes, info, home, root) && Precedes(nodes, info, n, idx, x)
    ensures var k, p := nodes[n].values[idx], nodes[x].values[|nodes[x].values| - 1];
            && k in home && p in home && p != k
            && Linked(Replaced(nodes, n, idx, x), ReplacedInfo(info, k, p), (home - {k})[p := n], root)
  {
    hide NodeOk, Precedes;
    PrecedesFacts(nodes, info, home, root, n, idx, x);
    var k, p := nodes[n].values[idx], nodes[x].values[|nodes[x].values| - 1];
    var m, f, h := Replaced(nodes, n, idx, x), ReplacedInfo(info, k, p), (home - {k})[p := n];
    ReplaceStored(nodes, info, home, root, n, idx, x);
    assert RootOk(m, f, root);
    forall y | y in m ensures NodeOk(m, f, h, root, y) { ReplaceNode(nodes, info, home, root, n, idx, x, y); }
  }

  lemma PrecedesFacts(nodes: Nodes, info: Infos, home: Home, root: Id, n: Id, idx: nat, x: Id)
    requires Linked(nodes, info, home, root) && Precedes(nodes, info, n, idx, x)
    ensures n in nodes && x in nodes && n != x && idx < |nodes[n].values| && !nodes[n].leaf && nodes[x].leaf
    ensures |nodes[x].values| > 0
    ensures var k, p := nodes[n].values[idx], nodes[x].values[|nodes[x].values| - 1];
            k in home && home[k] == n && p in home && home[p] == x && -1 < p < k < TWO_64
  {
    assert NodeOk(nodes, info, home, root, n) && NodeOk(nodes, info, home, root, x);
    var k, p := nodes[n].values[idx], nodes[x].values[|nodes[x].values| - 1];
    InTree(nodes, info, home, root, x, |nodes[x].values| - 1);
    InTree(nodes, info, home, root, n, idx);
  }

  /** Every key lies in the interval of the whole tree. */
  lemma {:induction false} InTree(nodes: Nodes, info: Infos, home: Home, root: Id, id: Id, i: nat)
    requires Linked(nodes, info, home, root) && id in nodes && i < |nodes[id].values|
    ensures -1 < nodes[id].values[i] < TWO_64
  {
    SpanInTree(nodes, info, home, root, id);
    assert NodeOk(nodes, info, home, root, id);
  }

  lemma {:induction false} SpanInTree(nodes: Nodes, info: Infos, home: Home, root: Id, id: Id)
    requires Linked(nodes, info, home, root) && id in nodes
    ensures -1 <= info[id].lo && info[id].hi <= TWO_64
    decreases info[root].level - info[id].level
  {
    if id != root {
      assert NodeOk(nodes, info, home, root, id);
      var x, i := nodes[id].parent, nodes[id].position;
      assert NodeOk(nodes, info, home, root, x) && ChildOk(nodes, info, x, i);
      SpanInTree(nodes, info, home, root, x);
      assert i > 0 ==> info[x].lo < nodes[x].values[i - 1];
      assert i < |nodes[x].values| ==> nodes[x].values[i] < info[x].hi;
    }
  }

  lemma ReplaceStored(nodes: Nodes, info: Infos, home: Home, root: Id, n: Id, idx: nat, x: Id)
    requires Linked(nodes, info, home, root) && Precedes(nodes, info, n, idx, x)
    ensures var k, p := nodes[n].values[idx], nodes[x].values[|nodes[x].values| - 1];
            StoredOk(Replaced(nodes, n, idx, x), (home - {k})[p := n])
  {
    hide NodeOk;
    PrecedesFacts(nodes, info, home, root, n, idx, x);
    var k, p := nodes[n].values[idx], nodes[x].values[|nodes[x].values| - 1];
    var m, h := Replaced(nodes, n, idx, x), (home - {k})[p := n];
    forall y | y in h ensures h[y] in m && y in m[h[y]].values {
      if y == p {
        assert m[n].values[idx] == p;
      } else {
        var v := nodes[home[y]].values;
        var j :| 0 <= j < |v| && v[j] == y;
        assert m[home[y]].values[j] == y;
      }
    }
  }

  lemma ReplaceNode(nodes: Nodes, info: Infos, home: Home, root: Id, n: Id, idx: nat, x: Id, y: Id)
    requires Linked(nodes, info, home, root) && Precedes(nodes, info, n, idx, x) && y in nodes
    ensures var k, p := nodes[n].values[idx], nodes[x].values[|nodes[x].values| - 1];
            NodeOk(Replaced(nodes, n, idx, x), ReplacedInfo(info, k, p), (home - {k})[p := n], root, y)
  {
    hide KeysOk, HomeOk, ChildOk, Precedes;
    PrecedesFacts(nodes, info, home, root, n, idx, x);
    var k, p := nodes[n].values[idx], nodes[x].values[|nodes[x].values| - 1];
    var m, f := Replaced(nodes, n, idx, x), ReplacedInfo(info, k, p);
    assert NodeOk(nodes, info, home, root, y);
    ReplaceHome(nodes, info, home, root, n, idx, x, y);
    ReplaceKeys(nodes, info, home, root, n, idx, x, y);
    forall i | 0 <= i < |m[y].children| ensures ChildOk(m, f, y, i) {
      ReplaceChild(nodes, info, home, root, n, idx, x, y, i);
    }
    assert LinkOk(m, root, y);
  }

  lemma ReplaceHome(nodes: Nodes, info: Infos, home: Home, root: Id, n: Id, idx: nat, x: Id, y: Id)
    requires Linked(nodes, info, home, root) && Precedes(nodes, info, n, idx, x) && y in nodes
    ensures var k, p := nodes[n].values[idx], nodes[x].values[|nodes[x].values| - 1];
            HomeOk(Replaced(nodes, n, idx, x), (home - {k})[p := n], y)
  {
    hide Precedes;
    PrecedesFacts(nodes, info, home, root, n, idx, x);
    assert NodeOk(nodes, info, home, root, y);
  }

  lemma ReplaceKeys(nodes: Nodes, info: Infos, home: Home, root: Id, n: Id, idx: nat, x: Id, y: Id)
    requires Linked(nodes, info, home, root) && Precedes(nodes, info, n, idx, x) && y in nodes
    ensures var k, p := nodes[n].values[idx], nodes[x].values[|nodes[x].values| - 1];
            KeysOk(Replaced(nodes, n, idx, x)[y], ReplacedInfo(info, k, p)[y])
  {
    hide NodeOk, RootOk, StoredOk;
    PrecedesFacts(nodes, info, home, root, n, idx, x);
    NodeKeys(nodes, info, home, root, y);
    var k, p := nodes[n].values[idx], nodes[x].values[|nodes[x].values| - 1];
    if y == n {
      UpdatedKeys(nodes[n].values, idx, p, info[n].lo, info[n].hi);
    } else if y == x {
      ShortenedKeys(nodes[x].values, info[x].lo, info[x].hi);
    } else {
      assert Renamed(info[y].lo, k, p) <= info[y].lo && Renamed(info[y].hi, k, p) <= info[y].hi;
    }
  }

  lemma NodeKeys(nodes: Nodes, info: Infos, home: Home, root: Id, y: Id)
    requires Linked(nodes, info, home, root) && y in nodes
    ensures KeysOk(nodes[y], info[y])
  {
    assert NodeOk(nodes, info, home, root, y);
  }

  lemma UpdatedKeys(v: seq<int>, idx: nat, p: int, lo: int, hi: int)
    requires Increasing(v) && Inside(v, lo, hi) && idx < |v| && LeftOf(v, idx, lo) < p < v[idx]
    ensures Increasing(v[idx := p]) && Inside(v[idx := p], lo, hi)
  {
    var w := v[idx := p];
    assert idx > 0 ==> lo < v[idx - 1] && forall i | 0 <= i < idx :: v[i] <= v[idx - 1];
    forall i, j | 0 <= i < j < |w| ensures w[i] < w[j] {
      assert i < idx ==> v[i] <= v[idx - 1];
    }
  }

  lemma ShortenedKeys(v: seq<int>, lo: int, hi: int)
    requires Increasing(v) && Inside(v, lo, hi) && |v| > 0
    ensures Increasing(v[..|v| - 1]) && Inside(v[..|v| - 1], lo, v[|v| - 1]) && lo < v[|v| - 1]
  {
  }

  lemma ReplaceChild(nodes: Nodes, info: Infos, home: Home, root: Id, n: Id, idx: nat, x: Id, y: Id, i: nat)
    requires Linked(nodes, info, home, root) && Precedes(nodes, info, n, idx, x) && y in nodes
    requires i < |nodes[y].children|
    ensures var k, p := nodes[n].values[idx], nodes[x].values[|nodes[x].values| - 1];
            ChildOk(Replaced(nodes, n, idx, x), ReplacedInfo(info, k, p), y, i)
  {
    hide Precedes, StoredOk, RootOk, LinkOk;
    PrecedesFacts(nodes, info, home, root, n, idx, x);
    assert NodeOk(nodes, info, home, root, y) && ChildOk(nodes, info, y, i);
    assert NodeOk(nodes, info, home, root, n);
  }
}
