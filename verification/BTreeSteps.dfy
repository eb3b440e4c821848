/** What one merge, split or change of root does to positions, to the nodes below and to how full the nodes are. */
module BTreeSteps {
  import opened Hashing
  import opened BTreeShape
  import opened BTreeSplit
  import opened BTreeRoot
  import opened BTreeLeaf
  import opened BTreeMoves

  /** Same contents; the place in the tree may differ. */
  predicate SameInside(n: Node, m: Node) {
    n.leaf == m.leaf && n.values == m.values && n.children == m.children && n.maxCount == m.maxCount
  }

  /** The nodes below a level keep their contents and their intervals. */
  ghost predicate SameBelow(nodes: Nodes, info: Infos, nodes': Nodes, info': Infos, level: nat) {
    forall id | id in nodes && id in info && info[id].level < level ::
      id in nodes' && id in info' && info'[id] == info[id] && SameInside(nodes[id], nodes'[id])
  }

  lemma SameBelowTwice(a: Nodes, fa: Infos, b: Nodes, fb: Infos, c: Nodes, fc: Infos, level: nat)
    requires SameBelow(a, fa, b, fb, level) && SameBelow(b, fb, c, fc, level)
    ensures SameBelow(a, fa, c, fc, level)
  {
  }

  // ----- merging -----

  lemma MergeBelow(nodes: Nodes, info: Infos, q: Id, p: nat, l: Id, r: Id)
    requires Siblings(nodes, info, q, p, l, r)
    ensures SameBelow(nodes, info, Merged(nodes, q, p, l, r), MergedInfo(info, l, r), info[l].level)
  {
  }

  /** Position `pos` of `l` stays; position `pos` of `r` follows the keys of `l` and the one between. */
  lemma MergeKeepsFit(nodes: Nodes, info: Infos, q: Id, p: nat, l: Id, r: Id, pos: nat, v: int)
    requires Siblings(nodes, info, q, p, l, r)
    ensures Fits(nodes, info, l, pos, v) ==> Fits(Merged(nodes, q, p, l, r), MergedInfo(info, l, r), l, pos, v)
    ensures Fits(nodes, info, r, pos, v) ==>
              Fits(Merged(nodes, q, p, l, r), MergedInfo(info, l, r), l, |nodes[l].values| + 1 + pos, v)
  {
    hide Merged;
    MergedLeft(nodes, info, q, p, l, r);
    var a, d, b := nodes[l].values, nodes[q].values[p], nodes[r].values;
    if pos <= |a| { JoinLeft(a, d, b, pos, info[l].lo, info[r].hi); }
    if pos <= |b| { JoinRight(a, d, b, pos, info[l].lo, info[r].hi); }
  }

  /** The next value at a position, or the bound of the node. */
  ghost function NextAt(nodes: Nodes, info: Infos, x: Id, pos: nat): (v: int)
    requires x in nodes && x in info && pos <= |nodes[x].values|
  {
    RightOf(nodes[x].values, pos, info[x].hi)
  }

  lemma MergeKeepsNext(nodes: Nodes, info: Infos, q: Id, p: nat, l: Id, r: Id, x: Id, pos: nat)
    requires Siblings(nodes, info, q, p, l, r) && (x == l || x == r) && pos <= |nodes[x].values|
    ensures var m, f := Merged(nodes, q, p, l, r), MergedInfo(info, l, r);
            var j := if x == l then pos else |nodes[l].values| + 1 + pos;
            && l in m && l in f && j <= |m[l].values| && NextAt(m, f, l, j) == NextAt(nodes, info, x, pos)
  {
    hide Merged;
    MergedLeft(nodes, info, q, p, l, r);
    var a, d, b := nodes[l].values, nodes[q].values[p], nodes[r].values;
    if x == l { JoinLeft(a, d, b, pos, info[l].lo, info[r].hi); } else {
      JoinRight(a, d, b, pos, info[l].lo, info[r].hi);
    }
  }

  lemma MergedLeft(nodes: Nodes, info: Infos, q: Id, p: nat, l: Id, r: Id)
    requires Siblings(nodes, info, q, p, l, r)
    ensures l in Merged(nodes, q, p, l, r) && l in MergedInfo(info, l, r)
    ensures Merged(nodes, q, p, l, r)[l].values == nodes[l].values + [nodes[q].values[p]] + nodes[r].values
    ensures Merged(nodes, q, p, l, r)[l].leaf == nodes[l].leaf && Merged(nodes, q, p, l, r)[l].parent == q
  {
  }

  lemma JoinLeft(a: seq<int>, d: int, b: seq<int>, pos: nat, lo: int, hi: int)
    requires pos <= |a|
    ensures var c := a + [d] + b; LeftOf(c, pos, lo) == LeftOf(a, pos, lo) && RightOf(c, pos, hi) == RightOf(a, pos, d)
  {
  }

  lemma JoinRight(a: seq<int>, d: int, b: seq<int>, pos: nat, lo: int, hi: int)
    requires pos <= |b|
    ensures var c := a + [d] + b; var j := |a| + 1 + pos;
            j <= |c| && LeftOf(c, j, lo) == LeftOf(b, pos, d) && RightOf(c, j, hi) == RightOf(b, pos, hi)
  {
  }

  // ----- splitting -----

  lemma SplitBelow(nodes: Nodes, info: Infos, q: Id, p: nat, l: Id, k: nat, r: Id, mc: nat)
    requires CanSplit(nodes, info, q, p, l, k, r) && info[l].level < info[q].level
    ensures SameBelow(nodes, info, Split(nodes, q, p, l, k, r, mc), SplitInfo(info, nodes, l, k, r), info[l].level)
  {
  }

  /** Positions up to `k` stay in `l`; later ones go to `r`. */
  lemma SplitKeepsFit(nodes: Nodes, info: Infos, q: Id, p: nat, l: Id, k: nat, r: Id, mc: nat, pos: nat, v: int)
    requires CanSplit(nodes, info, q, p, l, k, r) && Fits(nodes, info, l, pos, v)
    ensures var m, f := Split(nodes, q, p, l, k, r, mc), SplitInfo(info, nodes, l, k, r);
            if pos <= k then Fits(m, f, l, pos, v) else Fits(m, f, r, pos - k - 1, v)
  {
  }

  lemma SplitKeepsNext(nodes: Nodes, info: Infos, q: Id, p: nat, l: Id, k: nat, r: Id, mc: nat, pos: nat)
    requires CanSplit(nodes, info, q, p, l, k, r) && pos <= |nodes[l].values|
    ensures var m, f := Split(nodes, q, p, l, k, r, mc), SplitInfo(info, nodes, l, k, r);
            var y, j := if pos <= k then l else r, if pos <= k then pos else pos - k - 1;
            && y in m && y in f && j <= |m[y].values| && NextAt(m, f, y, j) == NextAt(nodes, info, l, pos)
  {
  }

  lemma SplitKeepsChild(nodes: Nodes, info: Infos, q: Id, p: nat, l: Id, k: nat, r: Id, mc: nat, c: Id)
    requires CanSplit(nodes, info, q, p, l, k, r) && c in nodes && c != l && c != q && nodes[c].parent == l
    ensures var m := Split(nodes, q, p, l, k, r, mc); var pos := nodes[c].position;
            if pos <= k then m[c].parent == l && m[c].position == pos
            else m[c].parent == r && m[c].position == pos - k - 1
  {
  }

  lemma SplitFilled(nodes: Nodes, info: Infos, root: Id, q: Id, p: nat, l: Id, k: nat, r: Id, cap: nat, e: Id, e': Id)
    requires CanSplit(nodes, info, q, p, l, k, r) && l != root && r != root && cap >= 3
    requires Filled(nodes, root, cap, e) && (e == NONE || e == q) && NONE !in nodes
    requires |nodes[q].values| < cap && |nodes[l].values| <= cap
    requires k == 0 ==> e' == l
    requires k == |nodes[l].values| - 1 ==> e' == r
    ensures Filled(Split(nodes, q, p, l, k, r, cap), root, cap, e')
  {
    var m := Split(nodes, q, p, l, k, r, cap);
    forall id | id in m ensures NodeFilled(m[id], id == root, cap, id == e') {
      assert id != r ==> NodeFilled(nodes[id], id == root, cap, id == e);
    }
  }

  // ----- redistributing -----

  lemma MoveFilled(nodes: Nodes, info: Infos, home: Home, root: Id, q: Id, p: nat, l: Id, r: Id, k: nat, cap: nat,
      e: Id)
    requires Linked(nodes, info, home, root) && CanMove(nodes, info, q, p, l, r, k) && l != root && r != root
    requires Filled(nodes, root, cap, e) && (e == NONE || e == l || e == r) && NONE !in nodes
    requires 1 <= k <= cap && 1 <= |nodes[l].values| + |nodes[r].values| - k <= cap
    ensures Filled(Rebalanced(nodes, q, p, l, r, k), root, cap, NONE)
  {
    hide Rebalanced, Linked;
    var m := Rebalanced(nodes, q, p, l, r, k);
    forall id | id in m ensures NodeFilled(m[id], id == root, cap, id == NONE) {
      MoveNode(nodes, info, home, root, q, p, l, r, k, id);
      assert NodeFilled(nodes[id], id == root, cap, id == e);
    }
  }

  lemma MoveBelow(nodes: Nodes, info: Infos, home: Home, root: Id, q: Id, p: nat, l: Id, r: Id, k: nat)
    requires Linked(nodes, info, home, root) && CanMove(nodes, info, q, p, l, r, k)
    ensures SameBelow(nodes, info, Rebalanced(nodes, q, p, l, r, k), RebalancedInfo(info, nodes, q, p, l, r, k),
              info[l].level)
  {
    hide Linked, Merged, MergedInfo, Split, SplitInfo;
    MergeBelow(nodes, info, q, p, l, r);
    MergedCanSplit(nodes, info, home, root, q, p, l, r, k);
    var m, f := Merged(nodes, q, p, l, r), MergedInfo(info, l, r);
    MergedLevels(info, l, r, q);
    SplitBelow(m, f, q, p, l, k, r, nodes[r].maxCount);
    SameBelowTwice(nodes, info, m, f, Rebalanced(nodes, q, p, l, r, k), RebalancedInfo(info, nodes, q, p, l, r, k),
        info[l].level);
  }

  lemma MergedLevels(info: Infos, l: Id, r: Id, q: Id)
    requires l in info && r in info && q in info && l != r && q != r && q != l
    ensures MergedInfo(info, l, r)[l].level == info[l].level && MergedInfo(info, l, r)[q] == info[q]
  {
  }

  /** Where position `j` of the joined neighbours ends up. */
  lemma MoveKeepsFit(nodes: Nodes, info: Infos, home: Home, root: Id, q: Id, p: nat, l: Id, r: Id, k: nat, x: Id,
      pos: nat, v: int)
    requires Linked(nodes, info, home, root) && CanMove(nodes, info, q, p, l, r, k)
    requires (x == l || x == r) && Fits(nodes, info, x, pos, v)
    ensures var j := if x == l then pos else |nodes[l].values| + 1 + pos;
            var m, f := Rebalanced(nodes, q, p, l, r, k), RebalancedInfo(info, nodes, q, p, l, r, k);
            if j <= k then Fits(m, f, l, j, v) else Fits(m, f, r, j - k - 1, v)
  {
    hide Linked, Merged, MergedInfo, Split, SplitInfo, Fits;
    MergeKeepsFit(nodes, info, q, p, l, r, pos, v);
    MergedCanSplit(nodes, info, home, root, q, p, l, r, k);
    var j := if x == l then pos else |nodes[l].values| + 1 + pos;
    SplitKeepsFit(Merged(nodes, q, p, l, r), MergedInfo(info, l, r), q, p, l, k, r, nodes[r].maxCount, j, v);
  }

  lemma MoveKeepsNext(nodes: Nodes, info: Infos, home: Home, root: Id, q: Id, p: nat, l: Id, r: Id, k: nat, x: Id,
      pos: nat)
    requires Linked(nodes, info, home, root) && CanMove(nodes, info, q, p, l, r, k)
    requires (x == l || x == r) && pos <= |nodes[x].values|
    ensures var j := if x == l then pos else |nodes[l].values| + 1 + pos;
            var m, f := Rebalanced(nodes, q, p, l, r, k), RebalancedInfo(info, nodes, q, p, l, r, k);
            var y, i := if j <= k then l else r, if j <= k then j else j - k - 1;
            && y in m && y in f && i <= |m[y].values| && NextAt(m, f, y, i) == NextAt(nodes, info, x, pos)
  {
    hide Linked, Merged, MergedInfo, Split, SplitInfo, NextAt;
    MergeKeepsNext(nodes, info, q, p, l, r, x, pos);
    MergedCanSplit(nodes, info, home, root, q, p, l, r, k);
    var j := if x == l then pos else |nodes[l].values| + 1 + pos;
    SplitKeepsNext(Merged(nodes, q, p, l, r), MergedInfo(info, l, r), q, p, l, k, r, nodes[r].maxCount, j);
  }

  lemma MoveKeepsChild(nodes: Nodes, info: Infos, home: Home, root: Id, q: Id, p: nat, l: Id, r: Id, k: nat, c: Id)
    requires Linked(nodes, info, home, root) && CanMove(nodes, info, q, p, l, r, k)
    requires c in nodes && (nodes[c].parent == l || nodes[c].parent == r)
    ensures c in Rebalanced(nodes, q, p, l, r, k)
    ensures var j := if nodes[c].parent == l then nodes[c].position else |nodes[l].values| + 1 + nodes[c].position;
            var n := Rebalanced(nodes, q, p, l, r, k)[c];
            if j <= k then n.parent == l && n.position == j else n.parent == r && n.position == j - k - 1
  {
    hide Rebalanced;
    assert NodeOk(nodes, info, home, root, c);
    assert NodeOk(nodes, info, home, root, nodes[c].parent) && ChildOk(nodes, info, nodes[c].parent, nodes[c].position);
    MoveNode(nodes, info, home, root, q, p, l, r, k, c);
  }

  // ----- a position travels with the keys around it -----

  /** Position `pos` of `x` has become position `pos'` of `y`, and nothing below their level has changed. */
  ghost predicate Travelled(nodes: Nodes, info: Infos, x: Id, pos: nat, nodes': Nodes, info': Infos, y: Id, pos': nat) {
    && x in nodes && x in info && y in nodes' && y in info' && pos <= |nodes[x].values| && pos' <= |nodes'[y].values|
    && NextAt(nodes', info', y, pos') == NextAt(nodes, info, x, pos)
    && nodes'[y].leaf == nodes[x].leaf && info'[y].level == info[x].level
    && (forall v {:trigger Fits(nodes', info', y, pos', v)} | Fits(nodes, info, x, pos, v) ::
         Fits(nodes', info', y, pos', v))
    && (pos < |nodes[x].children| ==> ChildAt(nodes', nodes[x].children[pos], y, pos'))
    && SameBelow(nodes, info, nodes', info', info[x].level)
  }

  lemma StaysPut(nodes: Nodes, info: Infos, x: Id, pos: nat)
    requires x in nodes && x in info && pos <= |nodes[x].values|
    requires pos < |nodes[x].children| ==> ChildAt(nodes, nodes[x].children[pos], x, pos)
    ensures Travelled(nodes, info, x, pos, nodes, info, x, pos)
  {
  }

  ghost predicate ChildAt(nodes: Nodes, c: Id, x: Id, pos: nat) {
    c in nodes && nodes[c].parent == x && nodes[c].position == pos
  }

  lemma MoveTravels(nodes: Nodes, info: Infos, home: Home, root: Id, q: Id, p: nat, l: Id, r: Id, k: nat, x: Id,
      pos: nat, y: Id, pos': nat)
    requires Linked(nodes, info, home, root) && CanMove(nodes, info, q, p, l, r, k)
    requires (x == l || x == r) && pos <= |nodes[x].values|
    requires var j := if x == l then pos else |nodes[l].values| + 1 + pos;
             if j <= k then y == l && pos' == j else y == r && pos' == j - k - 1
    ensures Travelled(nodes, info, x, pos, Rebalanced(nodes, q, p, l, r, k),
              RebalancedInfo(info, nodes, q, p, l, r, k), y, pos')
  {
    hide Linked, Rebalanced, Fits, SameBelow, Split, Merged, MergedInfo;
    var m, f := Rebalanced(nodes, q, p, l, r, k), RebalancedInfo(info, nodes, q, p, l, r, k);
    MoveBelow(nodes, info, home, root, q, p, l, r, k);
    MergedLevels(info, l, r, q);
    MoveNode(nodes, info, home, root, q, p, l, r, k, y);
    MoveKeepsNext(nodes, info, home, root, q, p, l, r, k, x, pos);
    forall v | Fits(nodes, info, x, pos, v) ensures Fits(m, f, y, pos', v) {
      MoveKeepsFit(nodes, info, home, root, q, p, l, r, k, x, pos, v);
    }
    if pos < |nodes[x].children| {
      ChildFacts(nodes, info, home, root, x, pos);
      MoveKeepsChild(nodes, info, home, root, q, p, l, r, k, nodes[x].children[pos]);
    }
  }

  lemma MergeTravels(nodes: Nodes, info: Infos, home: Home, root: Id, q: Id, p: nat, l: Id, r: Id, x: Id, pos: nat)
    requires Linked(nodes, info, home, root) && Siblings(nodes, info, q, p, l, r) && (x == l || x == r)
    requires pos <= |nodes[x].values|
    ensures Travelled(nodes, info, x, pos, Merged(nodes, q, p, l, r), MergedInfo(info, l, r), l,
                      if x == l then pos else |nodes[l].values| + 1 + pos)
    ensures Merged(nodes, q, p, l, r)[l].parent == q
  {
    hide Linked, Fits, SameBelow, Merged, MergedInfo;
    var m, f, pos' := Merged(nodes, q, p, l, r), MergedInfo(info, l, r),
        if x == l then pos else |nodes[l].values| + 1 + pos;
    MergeBelow(nodes, info, q, p, l, r);
    MergedLeft(nodes, info, q, p, l, r);
    MergedLevels(info, l, r, q);
    MergeKeepsNext(nodes, info, q, p, l, r, x, pos);
    forall v | Fits(nodes, info, x, pos, v) ensures Fits(m, f, l, pos', v) {
      MergeKeepsFit(nodes, info, q, p, l, r, pos, v);
    }
    if pos < |nodes[x].children| {
      ChildFacts(nodes, info, home, root, x, pos);
      MergeKeepsChild(nodes, info, home, root, q, p, l, r, nodes[x].children[pos]);
    }
  }

  lemma MergeKeepsChild(nodes: Nodes, info: Infos, home: Home, root: Id, q: Id, p: nat, l: Id, r: Id, c: Id)
    requires Linked(nodes, info, home, root) && Siblings(nodes, info, q, p, l, r)
    requires c in nodes && c in info && (nodes[c].parent == l || nodes[c].parent == r) && info[c].level < info[l].level
    ensures ChildAt(Merged(nodes, q, p, l, r), c, l,
                    if nodes[c].parent == l then nodes[c].position else |nodes[l].values| + 1 + nodes[c].position)
  {
    hide Linked;
  }

  lemma ChildFacts(nodes: Nodes, info: Infos, home: Home, root: Id, x: Id, i: nat)
    requires Linked(nodes, info, home, root) && x in nodes && i < |nodes[x].children|
    ensures var c := nodes[x].children[i];
            && ChildAt(nodes, c, x, i) && c in info
            && info[c].level == info[x].level - 1 && info[x].level > 0
  {
    assert NodeOk(nodes, info, home, root, x) && ChildOk(nodes, info, x, i);
  }

  lemma SplitTravels(nodes: Nodes, info: Infos, home: Home, root: Id, q: Id, p: nat, l: Id, k: nat, r: Id, mc: nat,
      pos: nat, y: Id, pos': nat)
    requires Linked(nodes, info, home, root) && CanSplit(nodes, info, q, p, l, k, r) && info[l].level < info[q].level
    requires pos <= |nodes[l].values|
    requires if pos <= k then y == l && pos' == pos else y == r && pos' == pos - k - 1
    ensures Travelled(nodes, info, l, pos, Split(nodes, q, p, l, k, r, mc), SplitInfo(info, nodes, l, k, r), y, pos')
  {
    hide Linked, Fits, SameBelow, With;
    var m, f := Split(nodes, q, p, l, k, r, mc), SplitInfo(info, nodes, l, k, r);
    SplitBelow(nodes, info, q, p, l, k, r, mc);
    forall v | Fits(nodes, info, l, pos, v) ensures Fits(m, f, y, pos', v) {
      SplitKeepsFit(nodes, info, q, p, l, k, r, mc, pos, v);
    }
    if pos < |nodes[l].children| {
      ChildFacts(nodes, info, home, root, l, pos);
      SplitKeepsChild(nodes, info, q, p, l, k, r, mc, nodes[l].children[pos]);
    }
  }

  lemma RaiseTravels(nodes: Nodes, info: Infos, home: Home, root: Id, top: Id, mc: nat, pos: nat)
    requires Linked(nodes, info, home, root) && top !in nodes && nodes[root].leaf && pos <= |nodes[root].values|
    ensures Travelled(nodes, info, root, pos, Raised(nodes, root, top, mc), RaisedInfo(info, root, top), root, pos)
  {
    assert NodeOk(nodes, info, home, root, root);
  }

  lemma PushTravels(nodes: Nodes, info: Infos, home: Home, root: Id, low: Id, pos: nat)
    requires Linked(nodes, info, home, root) && low !in nodes && low !in info && pos <= |nodes[root].values|
    ensures Travelled(nodes, info, root, pos, Pushed(nodes, root, low), PushedInfo(info, root, low), low, pos)
  {
    hide Linked;
    RootLevels(nodes, info, home, root);
    var m, f := Pushed(nodes, root, low), PushedInfo(info, root, low);
    if pos < |nodes[root].children| { ChildFacts(nodes, info, home, root, root, pos); }
    assert SameBelow(nodes, info, m, f, info[root].level);
  }

  lemma RootLevels(nodes: Nodes, info: Infos, home: Home, root: Id)
    requires Linked(nodes, info, home, root)
    ensures root in nodes && root in info
  {
  }

  lemma TravelTwice(a: Nodes, fa: Infos, x: Id, i: nat, b: Nodes, fb: Infos, y: Id, j: nat, c: Nodes, fc: Infos,
      z: Id, k: nat)
    requires Travelled(a, fa, x, i, b, fb, y, j) && Travelled(b, fb, y, j, c, fc, z, k)
    requires i < |a[x].children| ==> j < |b[y].children| && b[y].children[j] == a[x].children[i]
    ensures Travelled(a, fa, x, i, c, fc, z, k)
  {
    hide Fits, SameBelow;
    SameBelowTwice(a, fa, b, fb, c, fc, fa[x].level);
    forall v | Fits(a, fa, x, i, v) ensures Fits(c, fc, z, k, v) { assert Fits(b, fb, y, j, v); }
  }

  /** A change above its level leaves a position where it was. */
  lemma StayTravels(nodes: Nodes, info: Infos, home: Home, root: Id, x: Id, pos: nat, nodes': Nodes, info': Infos,
      home': Home, root': Id, level: nat)
    requires Linked(nodes, info, home, root) && Linked(nodes', info', home', root') && x in nodes
    requires pos <= |nodes[x].values|
    requires SameBelow(nodes, info, nodes', info', level) && info[x].level < level
    ensures Travelled(nodes, info, x, pos, nodes', info', x, pos)
  {
    hide NodeOk;
    assert SameInside(nodes[x], nodes'[x]);
    if pos < |nodes[x].children| { ChildFacts(nodes', info', home', root', x, pos); }
    assert SameBelow(nodes, info, nodes', info', info[x].level);
  }
}
