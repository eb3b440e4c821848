/** What the tree's methods need to know about one step: counts, levels, edges and neighbours. */
module BTreeFacts {
  import opened Hashing
  import opened BTreeShape
  import opened BTreeSplit
  import opened BTreeRoot
  import opened BTreeLeaf
  import opened BTreeMoves
  import opened BTreeHang
  import opened BTreeSteps
  import opened BTreeSearch
  import opened BTreeOrder
  import opened BTreeErase

  lemma LeafListed(nodes: Nodes, info: Infos, home: Home, root: Id, id: Id)
    requires Linked(nodes, info, home, root) && id in nodes && nodes[id].leaf
    ensures InOrder(nodes, info, home, root, id) == nodes[id].values
  {
  }

  /** A neighbour of a node that may be empty is not empty itself. */
  lemma OtherSize(nodes: Nodes, root: Id, cap: nat, x: Id, y: Id, q: Id, info: Infos, home: Home, i: nat)
    requires Filled(nodes, root, cap, x) && Linked(nodes, info, home, root) && q in nodes && i < |nodes[q].children|
    requires nodes[q].children[i] == y
    requires y != x && x in nodes && x != root
    ensures y in nodes && y != root && nodes[y].maxCount == cap && 1 <= |nodes[y].values| <= cap
    ensures |nodes[x].values| <= cap == nodes[x].maxCount
  {
    assert NodeOk(nodes, info, home, root, q) && ChildOk(nodes, info, q, i) && NodeOk(nodes, info, home, root, root);
    assert NodeFilled(nodes[y], y == root, cap, false) && NodeFilled(nodes[x], false, cap, true);
  }

  lemma ParentHasKey(nodes: Nodes, root: Id, cap: nat, x: Id, q: Id)
    requires Filled(nodes, root, cap, x) && q in nodes && q != x
    ensures |nodes[q].values| > 0
  {
    assert NodeFilled(nodes[q], q == root, cap, false);
  }

  lemma FilledNode(nodes: Nodes, root: Id, cap: nat, x: Id)
    requires Filled(nodes, root, cap, NONE) && NONE !in nodes && x in nodes
    ensures |nodes[x].values| > 0
  {
    assert NodeFilled(nodes[x], x == root, cap, false);
  }

  lemma DescendingIn(nodes: Nodes, info: Infos, n: Id, idx: nat, x: Id)
    requires Descending(nodes, info, n, idx, x)
    ensures x in nodes && x in info
  {
  }

  ghost predicate SameLevels(info: Infos, info': Infos) {
    info'.Keys == info.Keys && forall id | id in info :: info'[id].level == info[id].level
  }

  lemma MoveLevels(nodes: Nodes, info: Infos, q: Id, p: nat, l: Id, r: Id, k: nat)
    requires CanMove(nodes, info, q, p, l, r, k)
    ensures SameLevels(info, RebalancedInfo(info, nodes, q, p, l, r, k))
  {
  }

  lemma MoveKeepsParent(nodes: Nodes, info: Infos, home: Home, root: Id, q: Id, p: nat, l: Id, r: Id, k: nat, x: Id)
    requires Linked(nodes, info, home, root) && CanMove(nodes, info, q, p, l, r, k) && (x == l || x == r)
    ensures x in Rebalanced(nodes, q, p, l, r, k) && Rebalanced(nodes, q, p, l, r, k)[x].parent == q
    ensures Rebalanced(nodes, q, p, l, r, k)[x].leaf == nodes[x].leaf
  {
    hide Linked, Rebalanced;
    MoveNode(nodes, info, home, root, q, p, l, r, k, x);
  }

  lemma NothingMoved(nodes: Nodes, info: Infos, home: Home, root: Id, x: Id, pos: nat)
    requires Linked(nodes, info, home, root) && x in nodes
    ensures pos <= |nodes[x].values| ==> Travelled(nodes, info, x, pos, nodes, info, x, pos)
  {
    hide Linked, SameBelow, Fits;
    NodeHasInfo(nodes, info, home, root, x);
    if pos <= |nodes[x].values| {
      if pos < |nodes[x].children| { ChildFacts(nodes, info, home, root, x, pos); }
      StaysPut(nodes, info, x, pos);
    }
  }

  lemma NodeHasInfo(nodes: Nodes, info: Infos, home: Home, root: Id, x: Id)
    requires Linked(nodes, info, home, root) && x in nodes
    ensures x in info
  {
  }

  lemma MergeEdges(nodes: Nodes, info: Infos, home: Home, root: Id, q: Id, p: nat, l: Id, r: Id, leftmost: Id,
      rightmost: Id)
    requires Linked(nodes, info, home, root) && Siblings(nodes, info, q, p, l, r) && Edges(info, leftmost, rightmost)
    ensures Edges(MergedInfo(info, l, r), leftmost, if rightmost == r then l else rightmost)
  {
    hide Linked;
    InTree(nodes, info, home, root, q, p);
  }

  lemma OneLess(ks: set<int>, k: int)
    requires k in ks
    ensures |ks| > 0 && |ks - {k}| == |ks| - 1
  {
  }

  lemma NoKeys(nodes: Nodes, info: Infos, home: Home, root: Id)
    requires Linked(nodes, info, home, root) && nodes[root].leaf && nodes[root].values == []
    ensures home == map[]
  {
    hide NodeOk;
    LeafRootAlone(nodes, info, home, root);
    var v := nodes[root].values;
    forall k ensures k !in home {
      assert k in home ==> k in v;
    }
    assert home.Keys == {};
  }

  lemma RootChild(nodes: Nodes, info: Infos, home: Home, root: Id)
    requires Linked(nodes, info, home, root) && !nodes[root].leaf && nodes[root].values == []
    ensures |nodes[root].children| == 1 && EmptyRoot(nodes, root, nodes[root].children[0])
  {
    assert NodeOk(nodes, info, home, root, root) && ChildOk(nodes, info, root, 0);
    assert nodes[root].children == [nodes[root].children[0]];
  }

  // ----- the key after an erased one -----

  /** What is known of the key `w` at the position of the erased key `k`: after an internal deletion the last key before
      `k`, otherwise the bound of the next one. */
  ghost predicate Bounded(home: Home, k: int, w: int, internal: bool) {
    if internal then w in home && w < k && forall j | j in home && w < j :: k < j
    else k < w && forall j | j in home && k < j :: w <= j
  }

  lemma LeafBounded(nodes: Nodes, info: Infos, home: Home, root: Id, x: Id, pos: nat)
    requires Linked(nodes, info, home, root) && x in nodes && nodes[x].leaf && pos < |nodes[x].values|
    ensures x in info
    ensures var k := nodes[x].values[pos];
            Bounded(home - {k}, k, NextAt(Removed(nodes, x, pos), info, x, pos), false)
  {
    hide NodeOk;
    NothingBetween(nodes, info, home, root, x, pos + 1);
  }

  lemma ReplaceBounded(nodes: Nodes, info: Infos, home: Home, root: Id, n: Id, idx: nat, x: Id)
    requires Linked(nodes, info, home, root) && Precedes(nodes, info, n, idx, x)
    ensures n in nodes && x in nodes && idx < |nodes[n].values| && |nodes[x].values| > 0 && x in info
    ensures var k, p, last := nodes[n].values[idx], nodes[x].values[|nodes[x].values| - 1], |nodes[x].values| - 1;
            && last <= |Replaced(nodes, n, idx, x)[x].values| && x in ReplacedInfo(info, k, p)
            && Bounded((home - {k})[p := n], k, NextAt(Replaced(nodes, n, idx, x), ReplacedInfo(info, k, p), x, last),
                 true)
  {
    hide NodeOk, Precedes;
    PrecedesFacts(nodes, info, home, root, n, idx, x);
    PrecedesEnds(nodes, info, n, idx, x);
    PredecessorIsNext(nodes, info, home, root, n, idx, x);
  }

  lemma NextAfter(left: Home, home: Home, k: int, w: int, internal: bool, found: bool, v: int)
    requires Bounded(left, k, w, internal) && left.Keys == home.Keys && forall j | j in home :: j < TWO_64
    requires if found then v == w && v in home else w == TWO_64
    ensures !found ==> NoneAbove(home, k)
    ensures internal ==> found && Bounded(home, k, v, true)
    ensures found && !internal ==> Follows(home, k, v)
  {
    assert forall j :: j in left <==> j in home;
  }

  lemma NextButOne(home: Home, k: int, p: int, found: bool, v: int)
    requires Bounded(home, k, p, true) && if found then Follows(home, p, v) else NoneAbove(home, p)
    ensures if found then Follows(home, k, v) else NoneAbove(home, k)
  {
  }

  lemma NoKeyAbove(home: Home, k: int)
    requires home == map[]
    ensures NoneAbove(home, k)
  {
  }

  lemma KeysBelowEnd(nodes: Nodes, info: Infos, home: Home, root: Id)
    requires Linked(nodes, info, home, root)
    ensures forall j | j in home :: -1 < j < TWO_64
  {
    hide NodeOk;
    forall j | j in home ensures -1 < j < TWO_64 { KeyInTree(nodes, info, home, root, j); }
  }

  // ----- iterating over all keys -----

  /** The keys below `v`, a key itself, have been visited in order. */
  ghost predicate WalkedTo(home: Home, s: seq<int>, v: int) {
    && v in home && Increasing(s) && (forall i | 0 <= i < |s| :: s[i] in home && s[i] < v)
    && forall k | k in home && k < v :: k in s
  }

  ghost predicate WalkedAll(home: Home, s: seq<int>) {
    Increasing(s) && (forall i | 0 <= i < |s| :: s[i] in home) && forall k | k in home :: k in s
  }

  lemma LeftmostValue(nodes: Nodes, info: Infos, home: Home, root: Id, cap: nat, leftmost: Id, rightmost: Id)
    requires Linked(nodes, info, home, root) && Filled(nodes, root, cap, NONE) && Edges(info, leftmost, rightmost)
    ensures leftmost in nodes && |nodes[leftmost].values| > 0 && WalkedTo(home, [], nodes[leftmost].values[0])
  {
    hide NodeOk;
    InternalLevel(nodes, info, home, root, leftmost);
    FilledNode(nodes, root, cap, leftmost);
    NothingBetween(nodes, info, home, root, leftmost, 0);
    RemovedHome(nodes, info, home, root, leftmost, 0);
    KeysBelowEnd(nodes, info, home, root);
  }

  lemma WalkOn(home: Home, s: seq<int>, v: int, w: int)
    requires WalkedTo(home, s, v) && Follows(home, v, w)
    ensures WalkedTo(home, s + [v], w) && v < w
  {
    forall k | k in home && k < w ensures k in s + [v] { assert k < v || k == v; }
  }

  lemma WalkEnds(home: Home, s: seq<int>, v: int)
    requires WalkedTo(home, s, v) && NoneAbove(home, v)
    ensures WalkedAll(home, s + [v])
  {
    forall k | k in home ensures k in s + [v] { assert k < v || k == v; }
  }

  lemma WalkIsOrder(home: Home, s: seq<int>, t: seq<int>)
    requires WalkedAll(home, s) && Increasing(t)
    requires (forall i | 0 <= i < |t| :: t[i] in home) && forall k | k in home :: k in t
    ensures s == t
  {
    SameElements(s, t);
  }

  lemma AfterLeafValue(nodes: Nodes, info: Infos, home: Home, root: Id, x: Id, pos: nat)
    requires Linked(nodes, info, home, root) && x in nodes && x in info && nodes[x].leaf && pos < |nodes[x].values|
    ensures var v, w := nodes[x].values[pos], RightOf(nodes[x].values, pos + 1, info[x].hi);
            && (w in home ==> Follows(home, v, w)) && (w == TWO_64 ==> NoneAbove(home, v))
  {
    hide NodeOk;
    NothingBetween(nodes, info, home, root, x, pos + 1);
    KeysBelowEnd(nodes, info, home, root);
  }

  lemma ChildToTheRight(nodes: Nodes, info: Infos, home: Home, root: Id, x: Id, pos: nat)
    requires Linked(nodes, info, home, root) && x in nodes && !nodes[x].leaf && pos < |nodes[x].values|
    ensures pos + 1 < |nodes[x].children|
    ensures var c := nodes[x].children[pos + 1]; c in nodes && c in info && info[c].lo == nodes[x].values[pos]
  {
    assert NodeOk(nodes, info, home, root, x) && ChildOk(nodes, info, x, pos + 1);
  }

  lemma FirstChild(nodes: Nodes, info: Infos, home: Home, root: Id, x: Id)
    requires Linked(nodes, info, home, root) && x in nodes && x in info && !nodes[x].leaf
    ensures |nodes[x].children| > 0
    ensures var c := nodes[x].children[0];
            c in nodes && c in info && info[c].lo == info[x].lo && info[c].level < info[x].level
  {
    assert NodeOk(nodes, info, home, root, x) && ChildOk(nodes, info, x, 0);
  }

  lemma EndChild(nodes: Nodes, info: Infos, home: Home, root: Id, x: Id)
    requires Linked(nodes, info, home, root) && x in nodes && x in info && !nodes[x].leaf
    ensures |nodes[x].children| == |nodes[x].values| + 1
    ensures var c := nodes[x].children[|nodes[x].values|];
            c in nodes && c in info && info[c].hi == info[x].hi && info[c].level < info[x].level
  {
    assert NodeOk(nodes, info, home, root, x) && ChildOk(nodes, info, x, |nodes[x].values|);
  }

  /** There is one leaf at each edge of the tree. */
  lemma EdgesAreUnique(nodes: Nodes, info: Infos, home: Home, root: Id, cap: nat, l: Id, r: Id, leftmost: Id,
      rightmost: Id)
    requires Linked(nodes, info, home, root) && Filled(nodes, root, cap, NONE) && Edges(info, leftmost, rightmost)
    requires l in nodes && l in info && nodes[l].leaf && info[l].lo == -1
    requires r in nodes && r in info && nodes[r].leaf && info[r].hi == TWO_64
    ensures l == leftmost && r == rightmost && nodes[leftmost].leaf && nodes[rightmost].leaf
  {
    hide NodeOk, OnPath, Filled;
    RootFacts(nodes, info, home, root);
    InternalLevel(nodes, info, home, root, l);
    InternalLevel(nodes, info, home, root, r);
    InternalLevel(nodes, info, home, root, leftmost);
    InternalLevel(nodes, info, home, root, rightmost);
    LeafReaches(nodes, info, home, root, cap, l);
    LeafReaches(nodes, info, home, root, cap, leftmost);
    LeafReaches(nodes, info, home, root, cap, r);
    LeafReaches(nodes, info, home, root, cap, rightmost);
    CoveredOnce(nodes, info, home, root, l, leftmost, 0);
    CoveredOnce(nodes, info, home, root, r, rightmost, TWO_64 - 1);
  }

  /** The interval of a node holds a key. */
  lemma LeafReaches(nodes: Nodes, info: Infos, home: Home, root: Id, cap: nat, x: Id)
    requires Linked(nodes, info, home, root) && Filled(nodes, root, cap, NONE) && x in nodes && x in info
    ensures info[x].lo + 1 < info[x].hi
  {
    RootFacts(nodes, info, home, root);
    FilledNode(nodes, root, cap, x);
    NodeKeys(nodes, info, home, root, x);
    assert info[x].lo < nodes[x].values[0] < info[x].hi;
  }

  lemma CoveredOnce(nodes: Nodes, info: Infos, home: Home, root: Id, x: Id, y: Id, k: int)
    requires Linked(nodes, info, home, root) && x in nodes && x in info && y in nodes && y in info
    requires info[x].level == info[y].level && Covers(info[x], k) && Covers(info[y], k) && -1 < k < TWO_64
    ensures x == y
  {
    CoveredOnPath(nodes, info, home, root, x, k);
  }

  lemma NothingBelowMoved(nodes: Nodes, info: Infos, level: nat)
    ensures SameBelow(nodes, info, nodes, info, level)
  {
  }

  /** The leaf `y` is still there, with its values and its interval. */
  ghost predicate LeafKept(nodes: Nodes, info: Infos, nodes': Nodes, info': Infos, y: Id) {
    && y in nodes && y in info && y in nodes' && y in info'
    && nodes'[y].leaf && nodes'[y].values == nodes[y].values && info'[y] == info[y]
  }

  lemma LowerKeepsLeaf(nodes: Nodes, info: Infos, root: Id, child: Id, y: Id)
    requires y in nodes && y in info && nodes[y].leaf && y != root && child in nodes
    ensures LeafKept(nodes, info, Lowered(nodes, root, child), info - {root}, y)
  {
  }

  lemma PullKeepsLeaf(nodes: Nodes, info: Infos, root: Id, child: Id, y: Id)
    requires y in nodes && y in info && nodes[y].leaf && y != root && y != child
    requires child in nodes && child in info && root in nodes
    ensures LeafKept(nodes, info, Pulled(nodes, root, child), PulledInfo(info, root, child), y)
  {
  }

  lemma BelowKeepsLeaf(nodes: Nodes, info: Infos, nodes': Nodes, info': Infos, level: nat, y: Id)
    requires SameBelow(nodes, info, nodes', info', level) && y in nodes && y in info && info[y].level < level
    requires nodes[y].leaf
    ensures LeafKept(nodes, info, nodes', info', y)
  {
    assert SameInside(nodes[y], nodes'[y]);
  }

  lemma LowerShape(nodes: Nodes, root: Id, child: Id)
    requires child in nodes && child != root
    ensures Lowered(nodes, root, child).Keys == nodes.Keys - {root}
    ensures Lowered(nodes, root, child)[child].leaf == nodes[child].leaf
  {
  }

  lemma PullShape(nodes: Nodes, info: Infos, root: Id, child: Id, leftmost: Id, rightmost: Id)
    requires child in nodes && root in nodes && child in info && child != root && Edges(info, leftmost, rightmost)
    requires info[child].level > 0
    requires root in info && info[root].level > 0
    ensures forall id | id in Pulled(nodes, root, child) :: id in nodes
    ensures Edges(PulledInfo(info, root, child), leftmost, rightmost)
  {
  }

  /** The contents `c` of the child in the root `r`; the child is gone. */
  function TakenOver(nodes: Nodes, root: Id, r: Node, child: Id, c: Node): (m: Nodes) {
    nodes[root := r.(values := c.values, children := c.children)] - {child}
  }

  lemma PullSteps(nodes: Nodes, info: Infos, home: Home, root: Id, child: Id)
    requires Linked(nodes, info, home, root) && EmptyRoot(nodes, root, child) && child != root
    ensures var C := nodes[child]; var a := Rehang(nodes, child, 0, |C.children|, root, 0);
            TakenOver(a, root, nodes[root], child, C) == Pulled(nodes, root, child)
  {
    hide Linked, Kids;
    RootFacts(nodes, info, home, root);
    ChildrenAreKids(nodes, info, home, root, child);
    var C, a := nodes[child], Rehang(nodes, child, 0, |nodes[child].children|, root, 0);
    var m := TakenOver(a, root, nodes[root], child, C);
    assert m.Keys == Pulled(nodes, root, child).Keys;
    forall id | id in m ensures m[id] == Pulled(nodes, root, child)[id] { }
  }

  lemma InternalLevel(nodes: Nodes, info: Infos, home: Home, root: Id, x: Id)
    requires Linked(nodes, info, home, root) && x in nodes
    ensures x in info && (nodes[x].leaf <==> info[x].level == 0)
  {
    assert NodeOk(nodes, info, home, root, x);
  }

  lemma {:induction false} RemoveAbsent(s: seq<int>, k: int)
    requires k !in s
    ensures SortedRemove(s, k) == s
  {
    if |s| > 0 { RemoveAbsent(s[1..], k); }
  }

  lemma SmallIsRoot(nodes: Nodes, root: Id, cap: nat, x: Id)
    requires Filled(nodes, root, cap, NONE) && NONE !in nodes && x in nodes && nodes[x].maxCount < cap
    ensures x == root && nodes[x].leaf && 1 <= |nodes[x].values| <= nodes[x].maxCount
  {
    assert NodeFilled(nodes[x], x == root, cap, false);
  }

  lemma RegrowFilled(n: Node, y: Id, cap: nat, bigger: nat)
    requires n.leaf && 1 <= |n.values| <= bigger <= cap
    ensures Filled(Alone(n, y, bigger), y, cap, NONE)
  {
  }

  lemma EmptyHome(h: Home)
    ensures h == map[] ==> forall k :: k !in h
  {
  }

  lemma RootSpan(nodes: Nodes, info: Infos, home: Home, root: Id)
    requires Linked(nodes, info, home, root)
    ensures root in info && info[root].lo == -1 && info[root].hi == TWO_64
  {
  }

  lemma ParentBound(nodes: Nodes, info: Infos, home: Home, root: Id, x: Id)
    requires Linked(nodes, info, home, root) && x in nodes && x != root
    ensures var q, p := nodes[x].parent, nodes[x].position;
            q in nodes && x in info && q in info && p <= |nodes[q].values| &&
                info[x].hi == RightOf(nodes[q].values, p, info[q].hi)
  {
    assert NodeOk(nodes, info, home, root, x);
    assert NodeOk(nodes, info, home, root, nodes[x].parent) && ChildOk(nodes, info, nodes[x].parent, nodes[x].position);
  }

  lemma LeafSize(nodes: Nodes, root: Id, cap: nat, e: Id, x: Id)
    requires Filled(nodes, root, cap, e) && x in nodes && NONE !in nodes && cap >= 3
    ensures |nodes[x].values| <= nodes[x].maxCount <= cap && nodes[x].maxCount > 0
  {
    assert NodeFilled(nodes[x], x == root, cap, x == e);
  }

  lemma FilledExact(nodes: Nodes, root: Id, cap: nat, e: Id)
    requires Filled(nodes, root, cap, e) && NONE !in nodes && (e in nodes ==> |nodes[e].values| > 0)
    ensures Filled(nodes, root, cap, NONE)
  {
    forall id | id in nodes ensures NodeFilled(nodes[id], id == root, cap, id == NONE) {
      assert NodeFilled(nodes[id], id == root, cap, id == e);
    }
  }

  lemma FullLeaf(nodes: Nodes, info: Infos, home: Home, root: Id, cap: nat, y: Id)
    requires Linked(nodes, info, home, root) && Filled(nodes, root, cap, y) && y in nodes && !nodes[root].leaf
    requires nodes[y].leaf
    ensures nodes[y].maxCount == cap
  {
    assert NodeFilled(nodes[y], y == root, cap, true);
  }

  lemma CountKeys(nodes: Nodes, info: Infos, home: Home, root: Id)
    requires Linked(nodes, info, home, root)
    ensures root in nodes && (nodes[root].leaf ==> |home.Keys| == |nodes[root].values|)
  {
    hide Linked, InOrder;
    TreeLists(nodes, info, home, root);
    if nodes[root].leaf { LeafListed(nodes, info, home, root, root); }
  }

  lemma TravelFits(nodes: Nodes, info: Infos, x: Id, pos: nat, nodes': Nodes, info': Infos, y: Id, pos': nat, v: int)
    requires Travelled(nodes, info, x, pos, nodes', info', y, pos') && Fits(nodes, info, x, pos, v)
    ensures Fits(nodes', info', y, pos', v) && y in nodes' && nodes'[y].leaf == nodes[x].leaf
  {
  }

  lemma InsertFilled(nodes: Nodes, root: Id, cap: nat, e: Id, y: Id, pos: nat, k: int)
    requires Filled(nodes, root, cap, e) && NONE !in nodes && y in nodes
    requires pos <= |nodes[y].values| && (e == NONE || e == y)
    requires |nodes[y].values| < nodes[y].maxCount
    ensures Filled(Inserted(nodes, y, pos, k), root, cap, NONE)
  {
    var m := Inserted(nodes, y, pos, k);
    forall id | id in m ensures NodeFilled(m[id], id == root, cap, id == NONE) {
      assert NodeFilled(nodes[id], id == root, cap, id == e);
    }
  }

  lemma RootFacts(nodes: Nodes, info: Infos, home: Home, root: Id)
    requires Linked(nodes, info, home, root)
    ensures NONE !in nodes && root in nodes && nodes.Keys == info.Keys
    ensures (nodes[root].leaf <==> info[root].level == 0) && nodes[root].parent == NONE
    ensures forall id | id in nodes && id != root :: info[id].level < info[root].level
  {
    assert NodeOk(nodes, info, home, root, root);
  }

  lemma FilledWeaker(nodes: Nodes, root: Id, cap: nat, e: Id)
    requires Filled(nodes, root, cap, NONE) && NONE !in nodes
    ensures Filled(nodes, root, cap, e)
  {
    forall id | id in nodes ensures NodeFilled(nodes[id], id == root, cap, id == e) {
      assert NodeFilled(nodes[id], id == root, cap, id == NONE);
    }
  }

  lemma SameBelowSelf(nodes: Nodes, info: Infos, level: nat)
    ensures SameBelow(nodes, info, nodes, info, level)
  {
  }

  lemma RaiseFilled(nodes: Nodes, root: Id, top: Id, cap: nat)
    requires Filled(nodes, root, cap, NONE) && NONE !in nodes && root in nodes && top !in nodes && top != NONE
    requires nodes[root].maxCount == cap
    ensures Filled(Raised(nodes, root, top, cap), top, cap, top)
  {
    var m := Raised(nodes, root, top, cap);
    forall id | id in m ensures NodeFilled(m[id], id == top, cap, id == top) {
      assert id != top ==> NodeFilled(nodes[id], id == root, cap, id == NONE);
    }
  }

  lemma PushFilled(nodes: Nodes, root: Id, low: Id, cap: nat)
    requires Filled(nodes, root, cap, NONE) && root in nodes && NONE !in nodes && low !in nodes && !nodes[root].leaf
    ensures Filled(Pushed(nodes, root, low), root, cap, root)
  {
    var m := Pushed(nodes, root, low);
    forall id | id in m ensures NodeFilled(m[id], id == root, cap, id == root) {
      assert NodeFilled(nodes[root], true, cap, root == NONE);
      assert id != low ==> NodeFilled(nodes[id], id == root, cap, id == NONE);
    }
  }

  lemma PushSteps(nodes: Nodes, info: Infos, home: Home, root: Id, low: Id)
    requires Linked(nodes, info, home, root) && low !in nodes
    ensures var R := nodes[root];
            var kept := Rehang(nodes, root, 0, |R.children|, low, 0);
            kept[root := R.(values := [], children := [low])][low := R.(parent := root, position := 0)]
              == Pushed(nodes, root, low)
  {
    hide Linked, Kids;
    RootFacts(nodes, info, home, root);
    ChildrenAreKids(nodes, info, home, root, root);
    var R := nodes[root];
    var kept := Rehang(nodes, root, 0, |R.children|, low, 0);
    var a := kept[root := R.(values := [], children := [low])][low := R.(parent := root, position := 0)];
    var b := Pushed(nodes, root, low);
    assert a.Keys == b.Keys;
    forall id | id in a ensures a[id] == b[id] { }
  }

  lemma SplitCounts(nodes: Nodes, q: Id, p: nat, l: Id, k: nat, r: Id, mc: nat)
    requires q in nodes && l in nodes && l != q && r !in nodes
    requires p <= |nodes[q].values| && p < |nodes[q].children|
    requires k < |nodes[l].values| && (nodes[l].leaf || k < |nodes[l].children|)
    ensures var m := Split(nodes, q, p, l, k, r, mc);
            && m.Keys == nodes.Keys + {r} && |m[l].values| == k && |m[r].values| == |nodes[l].values| - k - 1
            && forall id | id in nodes :: m[id].leaf == nodes[id].leaf
  {
  }

  lemma SplitEdges(nodes: Nodes, info: Infos, l: Id, k: nat, r: Id, leftmost: Id, rightmost: Id)
    requires l in nodes && l in info && r !in info && k < |nodes[l].values| && Edges(info, leftmost, rightmost)
    ensures Edges(SplitInfo(info, nodes, l, k, r), leftmost, if rightmost == l then r else rightmost)
  {
  }

  /** After room has been made at the parent, the node is a child where the room is. */
  lemma ParentMoves(nodes: Nodes, info: Infos, x: Id, q: Id, p: nat, nodes': Nodes, info': Infos, q': Id, p': nat)
    requires Travelled(nodes, info, q, p, nodes', info', q', p') && x in nodes && x in info
    requires p < |nodes[q].children| && nodes[q].children[p] == x && info[x].level < info[q].level
    ensures x in nodes' && nodes'[x].parent == q' && SameInside(nodes[x], nodes'[x])
    ensures SameBelow(nodes, info, nodes', info', info[q].level)
  {
  }

  function Smaller(a: int, b: int): (r: int) {
    if a < b then a else b
  }

  /** The first and the last leaf. */
  ghost predicate Edges(info: Infos, leftmost: Id, rightmost: Id) {
    && leftmost in info && info[leftmost].level == 0 && info[leftmost].lo == -1
    && rightmost in info && info[rightmost].level == 0 && info[rightmost].hi == TWO_64
  }

  lemma ParentFacts(nodes: Nodes, info: Infos, home: Home, root: Id, x: Id)
    requires Linked(nodes, info, home, root) && x in nodes && x != root
    ensures var q, p := nodes[x].parent, nodes[x].position;
            && NONE !in nodes && root in nodes && q in nodes && q in info && x in info && !nodes[q].leaf
            && p < |nodes[q].children| == |nodes[q].values| + 1 && nodes[q].children[p] == x
            && info[x].level == info[q].level - 1 && info[q].level <= info[root].level
            && (p > 0 ==> nodes[q].children[p - 1] in nodes && Neighbours(nodes, q, p - 1, nodes[q].children[p - 1], x))
            && (p < |nodes[q].values| ==>
                 nodes[q].children[p + 1] in nodes && Neighbours(nodes, q, p, x, nodes[q].children[p + 1]))
  {
    assert NodeOk(nodes, info, home, root, x);
    var q, p := nodes[x].parent, nodes[x].position;
    assert NodeOk(nodes, info, home, root, q) && ChildOk(nodes, info, q, p);
    assert p > 0 ==> ChildOk(nodes, info, q, p - 1);
    assert p < |nodes[q].values| ==> ChildOk(nodes, info, q, p + 1);
  }

  lemma FullSize(nodes: Nodes, root: Id, cap: nat, x: Id)
    requires Filled(nodes, root, cap, NONE) && x in nodes && x != root && NONE !in nodes
    ensures nodes[x].maxCount == cap && 1 <= |nodes[x].values| <= cap
  {
  }

  lemma MoveEdges(nodes: Nodes, info: Infos, home: Home, root: Id, q: Id, p: nat, l: Id, r: Id, k: nat,
      leftmost: Id, rightmost: Id)
    requires Linked(nodes, info, home, root) && CanMove(nodes, info, q, p, l, r, k) && Edges(info, leftmost, rightmost)
    ensures Edges(RebalancedInfo(info, nodes, q, p, l, r, k), leftmost, rightmost)
  {
    hide Linked;
    InTree(nodes, info, home, root, q, p);
  }

  lemma MoveCounts(nodes: Nodes, info: Infos, home: Home, root: Id, q: Id, p: nat, l: Id, r: Id, k: nat)
    requires Linked(nodes, info, home, root) && CanMove(nodes, info, q, p, l, r, k)
    ensures var m := Rebalanced(nodes, q, p, l, r, k);
            && m.Keys == nodes.Keys && |m[l].values| == k && |m[r].values| == |nodes[l].values| + |nodes[r].values| - k
            && root in nodes && m[root].leaf == nodes[root].leaf
  {
    hide Linked, Rebalanced;
    RootFacts(nodes, info, home, root);
    MoveNode(nodes, info, home, root, q, p, l, r, k, root);
    MoveNode(nodes, info, home, root, q, p, l, r, k, l);
    MoveNode(nodes, info, home, root, q, p, l, r, k, r);
  }

  /** The keys of the neighbours `l` and `r` have been redistributed so that `l` has `k`. */
  ghost predicate Moved(nodes: Nodes, info: Infos, nodes': Nodes, info': Infos, l: Id, r: Id, k: nat) {
    && l in nodes && var q, p := nodes[l].parent, nodes[l].position;
      && CanMove(nodes, info, q, p, l, r, k)
      && nodes' == Rebalanced(nodes, q, p, l, r, k) && info' == RebalancedInfo(info, nodes, q, p, l, r, k)
  }

  lemma SplitReady(nodes: Nodes, info: Infos, home: Home, root: Id, l: Id, k: nat, r: Id)
    requires Linked(nodes, info, home, root) && l in nodes && l != root && k < |nodes[l].values| && r !in nodes
    requires r != NONE
    ensures CanSplit(nodes, info, nodes[l].parent, nodes[l].position, l, k, r)
  {
    assert NodeOk(nodes, info, home, root, l);
    assert NodeOk(nodes, info, home, root, nodes[l].parent) && ChildOk(nodes, info, nodes[l].parent, nodes[l].position);
  }
}
