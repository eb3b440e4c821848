/** The predecessor of a key of an internal node, and what merging does to how full the nodes are. */
module BTreeErase {
  import opened Hashing
  import opened BTreeShape
  import opened BTreeSplit
  import opened BTreeRoot
  import opened BTreeLeaf
  import opened BTreeMoves
  import opened BTreeSearch

  /** Node `x` is where the descent from value `idx` of `n` to its predecessor has arrived. */
  ghost predicate Descending(nodes: Nodes, info: Infos, n: Id, idx: nat, x: Id) {
    && n in nodes && n in info && x in nodes && x in info && idx < |nodes[n].values|
    && info[x].hi == nodes[n].values[idx] && info[x].level < info[n].level
    && LeftOf(nodes[n].values, idx, info[n].lo) <= info[x].lo
    && forall y | y in nodes && y in info && info[y].hi == nodes[n].values[idx] ::
         Passed(nodes[y], info[y], info[x], y == x)
  }

  /** A node whose interval ends at the same key is `x`, or below `x`, or to the left of its keys. */
  ghost predicate Passed(n: Node, f: Info, fx: Info, same: bool) {
    same || f.level < fx.level || (f.level > fx.level && f.lo <= fx.lo && forall i | 0 <= i < |n.values| ::
        n.values[i] <= fx.lo)
  }

  /** No node as high as the one that holds `k` has an interval ending at `k`. */
  lemma {:induction false} NoHighEnd(nodes: Nodes, info: Infos, home: Home, root: Id, k: int, y: Id)
    requires Linked(nodes, info, home, root) && k in home && y in nodes && home[k] in info
    requires info[y].level >= info[home[k]].level
    ensures info[y].hi != k
    decreases info[root].level - info[y].level
  {
    if y == root {
      var v := nodes[home[k]].values;
      var j :| 0 <= j < |v| && v[j] == k;
      InTree(nodes, info, home, root, home[k], j);
    } else {
      assert NodeOk(nodes, info, home, root, y);
      var z, i := nodes[y].parent, nodes[y].position;
      assert NodeOk(nodes, info, home, root, z) && ChildOk(nodes, info, z, i);
      NoHighEnd(nodes, info, home, root, k, z);
    }
  }

  lemma StartDescent(nodes: Nodes, info: Infos, home: Home, root: Id, n: Id, idx: nat)
    requires Linked(nodes, info, home, root) && n in nodes && !nodes[n].leaf && idx < |nodes[n].values|
    ensures idx < |nodes[n].children| && Descending(nodes, info, n, idx, nodes[n].children[idx])
  {
    assert NodeOk(nodes, info, home, root, n) && ChildOk(nodes, info, n, idx);
    var k, c := nodes[n].values[idx], nodes[n].children[idx];
    forall y | y in nodes && y in info && info[y].hi == k ensures Passed(nodes[y], info[y], info[c], y == c) {
      if info[y].level >= info[n].level {
        NoHighEnd(nodes, info, home, root, k, y);
      } else if info[y].level == info[c].level {
        EndsAt(nodes, info, home, root, k, y);
        assert nodes[n].values[nodes[y].position] == k;
      }
    }
  }

  /** A node one level below the one that holds `k` whose interval ends at `k` is the child to the left of `k`. */
  lemma EndsAt(nodes: Nodes, info: Infos, home: Home, root: Id, k: int, y: Id)
    requires Linked(nodes, info, home, root) && k in home && home[k] in info && y in nodes && info[y].hi == k
    requires info[y].level == info[home[k]].level - 1
    ensures y != root && nodes[y].parent == home[k]
    ensures var n, i := home[k], nodes[y].position;
            && n in nodes && i < |nodes[n].values| && nodes[n].values[i] == k
            && i < |nodes[n].children| && nodes[n].children[i] == y
  {
    assert NodeOk(nodes, info, home, root, y);
    assert NodeOk(nodes, info, home, root, home[k]);
    var z, i := nodes[y].parent, nodes[y].position;
    assert y != root;
    assert NodeOk(nodes, info, home, root, z) && ChildOk(nodes, info, z, i);
    NoHighEnd(nodes, info, home, root, k, z);
  }

  lemma DescendFurther(nodes: Nodes, info: Infos, home: Home, root: Id, n: Id, idx: nat, x: Id)
    requires Linked(nodes, info, home, root) && Descending(nodes, info, n, idx, x) && !nodes[x].leaf
    requires |nodes[x].values| > 0
    ensures |nodes[x].children| == |nodes[x].values| + 1
    ensures Descending(nodes, info, n, idx, nodes[x].children[|nodes[x].values|])
    ensures info[nodes[x].children[|nodes[x].values|]].level < info[x].level
  {
    var m := |nodes[x].values|;
    assert NodeOk(nodes, info, home, root, n) && NodeOk(nodes, info, home, root, x) && ChildOk(nodes, info, x, m);
    var k, c := nodes[n].values[idx], nodes[x].children[m];
    assert info[x].lo < nodes[x].values[m - 1] == info[c].lo;
    forall y | y in nodes && y in info && info[y].hi == k ensures Passed(nodes[y], info[y], info[c], y == c) {
      assert Passed(nodes[y], info[y], info[x], y == x);
      if y != x && info[y].level == info[c].level { LastChild(nodes, info, home, root, n, idx, x, y); }
    }
  }

  lemma LastChild(nodes: Nodes, info: Infos, home: Home, root: Id, n: Id, idx: nat, x: Id, y: Id)
    requires Linked(nodes, info, home, root) && Descending(nodes, info, n, idx, x) && y in nodes && y in info
    requires info[y].hi == nodes[n].values[idx] && info[y].level == info[x].level - 1
    requires |nodes[x].children| == |nodes[x].values| + 1
    ensures y == nodes[x].children[|nodes[x].values|]
  {
    var k := nodes[n].values[idx];
    assert NodeOk(nodes, info, home, root, n) && NodeOk(nodes, info, home, root, y);
    assert y != root;
    var z, i := nodes[y].parent, nodes[y].position;
    assert NodeOk(nodes, info, home, root, z) && ChildOk(nodes, info, z, i);
    assert Passed(nodes[z], info[z], info[x], z == x);
    assert NodeOk(nodes, info, home, root, x);
  }

  /** At a leaf the descent has reached the predecessor. */
  lemma EndDescent(nodes: Nodes, info: Infos, home: Home, root: Id, n: Id, idx: nat, x: Id)
    requires Linked(nodes, info, home, root) && Descending(nodes, info, n, idx, x) && nodes[x].leaf
    requires |nodes[x].values| > 0
    ensures Precedes(nodes, info, n, idx, x)
  {
    assert NodeOk(nodes, info, home, root, n) && NodeOk(nodes, info, home, root, x);
    var k, p := nodes[n].values[idx], nodes[x].values[|nodes[x].values| - 1];
    assert info[x].lo < p;
    forall y | y in nodes && y in info && info[y].hi == k && y != x
      ensures info[y].lo < p && forall i | 0 <= i < |nodes[y].values| :: nodes[y].values[i] < p
    {
      assert Passed(nodes[y], info[y], info[x], y == x);
    }
  }

  /** The key before `k` at the end of the leaf: no key lies between. */
  lemma PredecessorIsNext(nodes: Nodes, info: Infos, home: Home, root: Id, n: Id, idx: nat, x: Id)
    requires Linked(nodes, info, home, root) && Precedes(nodes, info, n, idx, x)
    ensures n in nodes && x in nodes && idx < |nodes[n].values| && |nodes[x].values| > 0
    ensures Follows(home, nodes[x].values[|nodes[x].values| - 1], nodes[n].values[idx])
  {
    hide NodeOk, Precedes;
    PrecedesFacts(nodes, info, home, root, n, idx, x);
    PrecedesEnds(nodes, info, n, idx, x);
    NothingBetween(nodes, info, home, root, x, |nodes[x].values|);
  }

  lemma PrecedesEnds(nodes: Nodes, info: Infos, n: Id, idx: nat, x: Id)
    requires Precedes(nodes, info, n, idx, x)
    ensures x in info && info[x].hi == nodes[n].values[idx]
  {
  }

  // ----- how full the nodes are after a merge, a removal or a lower root -----

  lemma MergeFilled(nodes: Nodes, info: Infos, root: Id, q: Id, p: nat, l: Id, r: Id, cap: nat, e: Id)
    requires Siblings(nodes, info, q, p, l, r) && l != root && r != root && NONE !in nodes
    requires Filled(nodes, root, cap, e) && (e == l || e == r) && |nodes[l].values| + 1 + |nodes[r].values| <= cap
    ensures Filled(Merged(nodes, q, p, l, r), root, cap, q)
  {
    var m := Merged(nodes, q, p, l, r);
    forall id | id in m ensures NodeFilled(m[id], id == root, cap, id == q) {
      assert NodeFilled(nodes[id], id == root, cap, id == e);
    }
  }

  lemma RemoveFilled(nodes: Nodes, root: Id, cap: nat, x: Id, pos: nat)
    requires Filled(nodes, root, cap, NONE) && NONE !in nodes && x in nodes && pos < |nodes[x].values|
    ensures Filled(Removed(nodes, x, pos), root, cap, x)
  {
    var m := Removed(nodes, x, pos);
    forall id | id in m ensures NodeFilled(m[id], id == root, cap, id == x) {
      assert NodeFilled(nodes[id], id == root, cap, id == NONE);
    }
  }

  lemma ReplaceFilled(nodes: Nodes, root: Id, cap: nat, n: Id, idx: nat, x: Id)
    requires Filled(nodes, root, cap, NONE) && NONE !in nodes && n in nodes && x in nodes && n != x
    requires idx < |nodes[n].values| && |nodes[x].values| > 0
    ensures Filled(Replaced(nodes, n, idx, x), root, cap, x)
  {
    var m := Replaced(nodes, n, idx, x);
    forall id | id in m ensures NodeFilled(m[id], id == root, cap, id == x) {
      assert NodeFilled(nodes[id], id == root, cap, id == NONE);
    }
  }

  lemma LowerFilled(nodes: Nodes, root: Id, child: Id, cap: nat)
    requires Filled(nodes, root, cap, root) && EmptyRoot(nodes, root, child) && child != root && NONE !in nodes
    ensures Filled(Lowered(nodes, root, child), child, cap, NONE)
  {
    var m := Lowered(nodes, root, child);
    forall id | id in m ensures NodeFilled(m[id], id == child, cap, id == NONE) {
      assert NodeFilled(nodes[id], false, cap, false);
    }
  }

  lemma PullFilled(nodes: Nodes, root: Id, child: Id, cap: nat)
    requires Filled(nodes, root, cap, root) && EmptyRoot(nodes, root, child) && child != root && NONE !in nodes
    requires !nodes[root].leaf
    ensures Filled(Pulled(nodes, root, child), root, cap, NONE)
  {
    var m := Pulled(nodes, root, child);
    assert NodeFilled(nodes[child], false, cap, false);
    forall id | id in m ensures NodeFilled(m[id], id == root, cap, id == NONE) {
      assert NodeFilled(nodes[id], id == root, cap, id == root);
    }
  }
}
