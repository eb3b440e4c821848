/** The B-tree: a set of keys below 2^64 in nodes linked to their parents and children. */
module BTree {
  import opened Hashing
  import opened BTreeShape
  import opened BTreeSplit
  import opened BTreeRoot
  import opened BTreeLeaf
  import opened BTreeMoves
  import opened BTreeHang
  import opened BTreeSteps
  import opened BTreeSearch
  import opened BTreeOrder
  import opened BTreeErase
  import opened BTreeFacts
  import opened BTreeVerify

  /** The node next to `x` on one side, if there is one, has so few keys that a single node holds those of both and the
      key between them. */
  predicate FitsBeside(nodes: Nodes, x: Id, side: int, cap: nat)
    requires x in nodes
  {
    var q, at := nodes[x].parent, nodes[x].position + side;
    && q in nodes && 0 <= at < |nodes[q].children| && nodes[q].children[at] in nodes
    && |nodes[x].values| + 1 + |nodes[nodes[q].children[at]].values| <= cap
  }

  /** The number of keys of the node next to `x` on one side; 0 if there is none. */
  function Beside(nodes: Nodes, x: Id, side: int): (n: nat)
    requires x in nodes
  {
    var q, at := nodes[x].parent, nodes[x].position + side;
    if q in nodes && 0 <= at < |nodes[q].children| && nodes[q].children[at] in nodes
    then |nodes[nodes[q].children[at]].values| else 0
  }

  function Half(other: nat, own: nat): (n: nat)
    requires own < other
  {
    if (other - own) / 2 < other - 1 then (other - own) / 2 else other - 1
  }

  /** The keys of `x` once a neighbour with more than half a node of them has shared what it has: the right one unless
      the key erased was the first of several, otherwise the left one unless it was the last. */
  function AfterPull(nodes: Nodes, x: Id, pos: nat, cap: nat): (n: nat)
    requires x in nodes && |nodes[x].values| < cap / 2
  {
    var own, l, r := |nodes[x].values|, Beside(nodes, x, -1), Beside(nodes, x, 1);
    if r > cap / 2 && (own == 0 || pos > 0) then own + Half(r, own)
    else if l > cap / 2 && (own == 0 || pos < own) then own + Half(l, own)
    else own
  }

  /** The keys that a neighbour with `count` keys gets from a full node: half of its room, or all of it when the
      insertion is at the far end, and at least one. */
  function Share(cap: nat, count: nat, all: bool): (m: nat)
    requires count < cap
    ensures 1 <= m <= cap - count
  {
    if all || cap - count == 1 then cap - count else (cap - count) / 2
  }

  /** The left neighbour of a full node takes keys before an insertion at `pos`: it has room, and still has some for the
      new key if that comes to lie in it. */
  predicate GivesLeft(nodes: Nodes, x: Id, pos: nat, cap: nat)
    requires x in nodes
  {
    var q, p := nodes[x].parent, nodes[x].position;
    && q in nodes && 0 < p <= |nodes[q].children| && nodes[q].children[p - 1] in nodes
    && var a := |nodes[nodes[q].children[p - 1]].values|;
       a < cap && (Share(cap, a, pos == cap) <= pos || a + Share(cap, a, pos == cap) < cap)
  }

  /** The same for the right neighbour. */
  predicate GivesRight(nodes: Nodes, x: Id, pos: nat, cap: nat)
    requires x in nodes
  {
    var q, p := nodes[x].parent, nodes[x].position;
    && q in nodes && p + 1 < |nodes[q].children| && nodes[q].children[p + 1] in nodes
    && var b := |nodes[nodes[q].children[p + 1]].values|;
       b < cap && (pos + Share(cap, b, pos == 0) <= cap || b + Share(cap, b, pos == 0) < cap)
  }

  class BTree {
    /** `kNodeValues`. */
    const cap: nat
    var nodes: Nodes
    var root: Id
    var size: nat
    var leftmost: Id
    var rightmost: Id
    var nextId: Id
    ghost var info: Infos
    ghost var home: Home

    /** The structure of a tree that is not empty; only node `except` may have no key. */
    ghost predicate Core(except: Id)
      reads this
    {
      && cap >= 3 && Linked(nodes, info, home, root) && Filled(nodes, root, cap, except)
      && nextId != NONE && (forall id | id in nodes :: id < nextId)
      && Edges(info, leftmost, rightmost)
    }

    /** The invariant of a tree between operations. */
    ghost predicate Valid()
      reads this
    {
      if root == NONE then cap >= 3 && nextId != NONE && nodes == map[] && home == map[]
      else Core(NONE) && (root in nodes && !nodes[root].leaf ==> size == |home.Keys|)
    }

    /** The keys of the tree, in order. */
    ghost function Keys(): (s: seq<int>)
      requires Valid()
      reads this
    {
      if root == NONE then [] else InOrder(nodes, info, home, root, root)
    }

    constructor (nodeValues: nat)
      requires nodeValues >= 3
      ensures Valid() && Keys() == [] && cap == nodeValues
    {
      cap := nodeValues;
      nodes, root, size := map[], NONE, 0;
      leftmost, rightmost, nextId := NONE, NONE, 1;
      info, home := map[], map[];
    }

    /** `size`: a leaf root counts its own keys. */
    method Size() returns (n: nat)
      requires Valid()
      ensures n == |Keys()|
    {
      hide Linked, InOrder, Filled;
      if root == NONE { return 0; }
      TreeLists(nodes, info, home, root);
      if nodes[root].leaf {
        LeafListed(nodes, info, home, root, root);
        return |nodes[root].values|;
      }
      return size;
    }

    /** A loop of `set_child` or `set_position`. */
    method SetChildren(kids: seq<Id>, from: Id, lo: nat, x: Id, shift: int)
      requires Kids(nodes, kids, from, lo) && lo + shift >= 0
      modifies this`nodes
      ensures nodes == old(Rehang(nodes, from, lo, lo + |kids|, x, shift))
    {
      ghost var before := nodes;
      RehangNone(nodes, from, lo, x, shift);
      for i := 0 to |kids|
        invariant nodes == Rehang(before, from, lo, lo + i, x, shift)
      {
        var c := kids[i];
        RehangOne(before, kids, from, lo, x, shift, i);
        nodes := nodes[c := nodes[c].(parent := x, position := lo + i + shift)];
      }
    }

    /** `merge`: the keys of `r` and the one between move into `l`. */
    method MergeNodes(l: Id, r: Id)
      requires Linked(nodes, info, home, root)
      requires l in nodes && nodes[l].parent in nodes && Neighbours(nodes, nodes[l].parent, nodes[l].position, l, r)
      modifies this`nodes, this`info, this`home, this`rightmost
      ensures Linked(nodes, info, home, root) && home.Keys == old(home.Keys)
      ensures var q, p := old(nodes[l].parent), old(nodes[l].position);
              && nodes == old(Merged(nodes, q, p, l, r)) && info == old(MergedInfo(info, l, r))
      ensures rightmost == if old(rightmost) == r then l else old(rightmost)
    {
      hide Linked, NodeOk, Kids, Rehang, Merged;
      ghost var before := nodes;
      var L, R, q, p := nodes[l], nodes[r], nodes[l].parent, nodes[l].position;
      var Q := nodes[q];
      NeighbourFacts(nodes, info, home, root, q, p, l, r);
      MergeKeeps(nodes, info, home, root, q, p, l, r);
      MergeFirst(nodes, info, home, root, q, p, l, r);
      MergeSecond(nodes, info, home, root, q, p, l, r);
      MergeThird(nodes, info, home, root, q, p, l, r);
      nodes := nodes[l := Extended(nodes, q, p, l, r)];
      SetChildren(R.children, r, 0, l, |L.values| + 1);
      nodes := nodes[q := Reduced(Q, p)];
      SetChildren(Q.children[p + 2..], q, p + 2, q, -1);
      nodes := nodes - {r};
      home := MergedHome(home, before, q, p, l, r);
      info := MergedInfo(info, l, r);
      if rightmost == r { rightmost := l; }
    }

    /** `split`: the keys of `l` after value `k` move into a new node and value `k` to the parent. */
    method SplitNode(l: Id, k: nat) returns (r: Id)
      requires Linked(nodes, info, home, root) && nextId != NONE && forall id | id in nodes :: id < nextId
      requires l in nodes && l != root && k < |nodes[l].values|
      modifies this`nodes, this`info, this`home, this`rightmost, this`nextId
      ensures Linked(nodes, info, home, root) && home.Keys == old(home.Keys)
      ensures r == old(nextId) && nextId == r + 1 && (forall id | id in nodes :: id < nextId)
      ensures old(CanSplit(nodes, info, nodes[l].parent, nodes[l].position, l, k, nextId))
      ensures var q, p := old(nodes[l].parent), old(nodes[l].position);
              nodes == old(Split(nodes, q, p, l, k, nextId, cap)) && info == old(SplitInfo(info, nodes, l, k, nextId))
      ensures rightmost == if old(rightmost) == l then r else old(rightmost)
    {
      hide Linked, NodeOk, Kids, Rehang, Split;
      ghost var before := nodes;
      r := nextId;
      nextId := nextId + 1;
      var L, q, p := nodes[l], nodes[l].parent, nodes[l].position;
      SplitReady(nodes, info, home, root, l, k, r);
      var Q := nodes[q];
      SplitKeeps(nodes, info, home, root, q, p, l, k, r, cap);
      SplitDomain(nodes, q, p, l, k, r, cap);
      SplitFirst(nodes, info, home, root, q, p, l, k, r);
      SplitThird(nodes, info, home, root, q, p, l, k, r, cap);
      nodes := nodes[l := LeftPart(L, k)];
      SetChildren(Q.children[p + 1..], q, p + 1, q, 1);
      nodes := nodes[q := Q.(values := With(Q.values, p, L.values[k]), children := With(Q.children, p + 1, r))];
      nodes := nodes[r := RightPart(L, k, cap)];
      if !L.leaf {
        SplitSecond(before, info, home, root, q, p, l, k, r, cap);
        SetChildren(L.children[k + 1..], l, k + 1, r, -(k + 1));
      }
      home := SplitHome(home, before, q, l, k, r);
      info := SplitInfo(info, before, l, k, r);
      if rightmost == l { rightmost := r; }
    }

    /** `rebalance_right_to_left`: `t` keys move from `r` to its left neighbour `l`. */
    method RebalanceRightToLeft(l: Id, r: Id, t: nat)
      requires Linked(nodes, info, home, root)
      requires l in nodes && nodes[l].parent in nodes && Neighbours(nodes, nodes[l].parent, nodes[l].position, l, r)
      requires 1 <= t <= |nodes[r].values|
      modifies this`nodes, this`info, this`home
      ensures Linked(nodes, info, home, root) && home.Keys == old(home.Keys)
      ensures Moved(old(nodes), old(info), nodes, info, l, r, old(|nodes[l].values|) + t)
    {
      hide Linked, NodeOk, Kids, Rehang, Rebalanced, RebalancedInfo, RebalancedHome, CanMove;
      var L, R, q, p := nodes[l], nodes[r], nodes[l].parent, nodes[l].position;
      var Q := nodes[q];
      ShiftReady(nodes, info, home, root, q, p, l, r);
      RightMoves(nodes, info, home, root, q, p, l, r, t);
      RebalanceKeeps(nodes, info, home, root, q, p, l, r, |L.values| + t);
      ghost var before := nodes;
      nodes := nodes[l := L.(values := L.values + [Q.values[p]] + R.values[..t - 1],
                             children := if R.leaf then [] else L.children + R.children[..t])];
      nodes := nodes[q := Q.(values := Q.values[p := R.values[t - 1]])];
      nodes := nodes[r := R.(values := R.values[t..], children := if R.leaf then [] else R.children[t..])];
      if !R.leaf {
        RightKids(before, info, home, root, q, p, l, r, t);
        SetChildren(R.children[..t], r, 0, l, |L.values| + 1);
        SetChildren(R.children[t..], r, t, r, 0 - t);
      }
      home := RebalancedHome(home, before, q, p, l, r, |L.values| + t);
      info := RebalancedInfo(info, before, q, p, l, r, |L.values| + t);
    }

    /** `rebalance_left_to_right`: `t` keys move from `l` to its right neighbour `r`. */
    method RebalanceLeftToRight(l: Id, r: Id, t: nat)
      requires Linked(nodes, info, home, root)
      requires l in nodes && nodes[l].parent in nodes && Neighbours(nodes, nodes[l].parent, nodes[l].position, l, r)
      requires 1 <= t <= |nodes[l].values|
      modifies this`nodes, this`info, this`home
      ensures Linked(nodes, info, home, root) && home.Keys == old(home.Keys)
      ensures Moved(old(nodes), old(info), nodes, info, l, r, old(|nodes[l].values|) - t)
    {
      hide Linked, NodeOk, Kids, Rehang, Rebalanced, RebalancedInfo, RebalancedHome, CanMove;
      var L, R, q, p := nodes[l], nodes[r], nodes[l].parent, nodes[l].position;
      var Q, k := nodes[q], |L.values| - t;
      ShiftReady(nodes, info, home, root, q, p, l, r);
      LeftMoves(nodes, info, home, root, q, p, l, r, t);
      RebalanceKeeps(nodes, info, home, root, q, p, l, r, k);
      ghost var before := nodes;
      nodes := nodes[r := R.(values := L.values[k + 1..] + [Q.values[p]] + R.values,
                             children := if L.leaf then [] else L.children[k + 1..] + R.children)];
      nodes := nodes[q := Q.(values := Q.values[p := L.values[k]])];
      nodes := nodes[l := L.(values := L.values[..k], children := if L.leaf then [] else L.children[..k + 1])];
      if !L.leaf {
        LeftKids(before, info, home, root, q, p, l, r, t);
        SetChildren(R.children, r, 0, r, t);
        SetChildren(L.children[k + 1..], l, k + 1, r, -(k + 1));
      }
      home := RebalancedHome(home, before, q, p, l, r, k);
      info := RebalancedInfo(info, before, q, p, l, r, k);
    }

    /** The first half of `rebalance_or_split`: room by moving keys to the left sibling. */
    method TryLeft(x: Id, pos: nat) returns (done: bool, y: Id, pos': nat)
      requires Core(NONE) && x in nodes && x != root && |nodes[x].values| == cap && pos <= cap
      modifies this`nodes, this`info, this`home
      ensures !done ==> nodes == old(nodes) && info == old(info) && home == old(home)
      ensures done ==> Core(NONE) && home.Keys == old(home.Keys)
      ensures done ==> Travelled(old(nodes), old(info), x, pos, nodes, info, y, pos')
      ensures done ==> y in nodes && |nodes[y].values| < cap && nodes[root].leaf == old(nodes[root].leaf)
      ensures done <==> old(GivesLeft(nodes, x, pos, cap))
    {
      hide Linked, NodeOk, Rebalanced, RebalancedInfo, RebalancedHome, Travelled, Filled, Edges;
      done, y, pos' := false, x, pos;
      ParentFacts(nodes, info, home, root, x);
      var q, p := nodes[x].parent, nodes[x].position;
      if p == 0 { return; }
      var left := nodes[q].children[p - 1];
      ShiftReady(nodes, info, home, root, q, p - 1, left, x);
      FullSize(nodes, root, cap, left);
      var a := |nodes[left].values|;
      if a >= nodes[left].maxCount { return; }
      var toMove := if pos < nodes[left].maxCount then (nodes[left].maxCount - a) / 2 else nodes[left].maxCount - a;
      toMove := if toMove < 1 then 1 else toMove;
      if pos - toMove < 0 && a + toMove >= nodes[left].maxCount { return; }
      ghost var before, before', h := nodes, info, home;
      RebalanceRightToLeft(left, x, toMove);
      MoveFilled(before, before', h, root, q, p - 1, left, x, a + toMove, cap, NONE);
      MoveEdges(before, before', h, root, q, p - 1, left, x, a + toMove, leftmost, rightmost);
      MoveCounts(before, before', h, root, q, p - 1, left, x, a + toMove);
      if pos - toMove < 0 {
        pos' := pos - toMove + |nodes[left].values| + 1;
        y := left;
      } else {
        pos' := pos - toMove;
      }
      MoveTravels(before, before', h, root, q, p - 1, left, x, a + toMove, x, pos, y, pos');
      done := true;
    }

    /** The second half: room by moving keys to the right sibling. */
    method TryRight(x: Id, pos: nat) returns (done: bool, y: Id, pos': nat)
      requires Core(NONE) && x in nodes && x != root && |nodes[x].values| == cap && pos <= cap
      modifies this`nodes, this`info, this`home
      ensures !done ==> nodes == old(nodes) && info == old(info) && home == old(home)
      ensures done ==> Core(NONE) && home.Keys == old(home.Keys)
      ensures done ==> Travelled(old(nodes), old(info), x, pos, nodes, info, y, pos')
      ensures done ==> y in nodes && |nodes[y].values| < cap && nodes[root].leaf == old(nodes[root].leaf)
      ensures done <==> old(GivesRight(nodes, x, pos, cap))
    {
      hide Linked, NodeOk, Rebalanced, RebalancedInfo, RebalancedHome, Travelled, Filled, Edges;
      done, y, pos' := false, x, pos;
      ParentFacts(nodes, info, home, root, x);
      var q, p := nodes[x].parent, nodes[x].position;
      if p >= |nodes[q].values| { return; }
      var right := nodes[q].children[p + 1];
      ShiftReady(nodes, info, home, root, q, p, x, right);
      FullSize(nodes, root, cap, right);
      var b := |nodes[right].values|;
      if b >= nodes[right].maxCount { return; }
      var toMove := if pos > 0 then (nodes[right].maxCount - b) / 2 else nodes[right].maxCount - b;
      toMove := if toMove < 1 then 1 else toMove;
      if pos > cap - toMove && b + toMove >= nodes[right].maxCount { return; }
      ghost var before, before', h := nodes, info, home;
      RebalanceLeftToRight(x, right, toMove);
      MoveFilled(before, before', h, root, q, p, x, right, cap - toMove, cap, NONE);
      MoveEdges(before, before', h, root, q, p, x, right, cap - toMove, leftmost, rightmost);
      MoveCounts(before, before', h, root, q, p, x, right, cap - toMove);
      if pos > |nodes[x].values| {
        pos' := pos - |nodes[x].values| - 1;
        y := right;
      }
      MoveTravels(before, before', h, root, q, p, x, right, cap - toMove, x, pos, y, pos');
      done := true;
    }

    /** Both of them, the left one first. */
    method TryNeighbours(x: Id, pos: nat) returns (done: bool, y: Id, pos': nat)
      requires Core(NONE) && x in nodes && x != root && |nodes[x].values| == cap && pos <= cap
      modifies this`nodes, this`info, this`home
      ensures !done ==> nodes == old(nodes) && info == old(info) && home == old(home)
      ensures done ==> Core(y) && home.Keys == old(home.Keys)
      ensures done ==> Travelled(old(nodes), old(info), x, pos, nodes, info, y, pos')
      ensures done ==> y in nodes && |nodes[y].values| < cap && root in nodes && !nodes[root].leaf
      ensures done <==> old(GivesLeft(nodes, x, pos, cap)) || old(GivesRight(nodes, x, pos, cap))
    {
      hide Linked, NodeOk, Travelled, SameBelow;
      RootFacts(nodes, info, home, root);
      ParentFacts(nodes, info, home, root, x);
      done, y, pos' := TryLeft(x, pos);
      if !done {
        done, y, pos' := TryRight(x, pos);
      }
      if done {
        RootFacts(nodes, info, home, root);
        FilledWeaker(nodes, root, cap, y);
      }
    }

    /** A full root gets an empty node above its contents. */
    method GrowRoot(pos: nat) returns (y: Id)
      requires Core(NONE) && |nodes[root].values| == cap && pos <= cap
      modifies this
      ensures Core(root) && home.Keys == old(home.Keys) && root in nodes && |nodes[root].values| == 0
      ensures Travelled(old(nodes), old(info), old(root), pos, nodes, info, y, pos)
      ensures y in nodes && y != root && nodes[y].parent == root && SameInside(old(nodes[root]), nodes[y])
      ensures !nodes[root].leaf && nextId > old(nextId)
      ensures size == if old(nodes[root].leaf) then cap else old(size)
    {
      hide Linked;
      RootFacts(nodes, info, home, root);
      assert NodeFilled(nodes[root], true, cap, false);
      if nodes[root].leaf {
        y := RaiseRoot(pos);
      } else {
        y := PushRoot(pos);
      }
    }

    /** A leaf root: a new root above it. */
    method RaiseRoot(pos: nat) returns (y: Id)
      requires Core(NONE) && root in nodes && nodes[root].leaf && |nodes[root].values| == cap == nodes[root].maxCount
      requires pos <= cap
      modifies this`nodes, this`info, this`root, this`nextId, this`size
      ensures nextId > old(nextId)
      ensures Core(root) && root in nodes && |nodes[root].values| == 0 && !nodes[root].leaf && size == cap
      ensures Travelled(old(nodes), old(info), old(root), pos, nodes, info, y, pos)
      ensures y in nodes && y != root && nodes[y].parent == root && SameInside(old(nodes[root]), nodes[y])
    {
      hide NodeOk, Travelled, Linked, Filled;
      var top := nextId;
      nextId := nextId + 1;
      RootFacts(nodes, info, home, root);
      RaiseKeeps(nodes, info, home, root, top, cap);
      RaiseTravels(nodes, info, home, root, top, cap, pos);
      RaiseFilled(nodes, root, top, cap);
      size := |nodes[root].values|;
      y := root;
      nodes := Raised(nodes, root, top, cap);
      info := RaisedInfo(info, root, top);
      root := top;
    }

    /** An internal root stays in place and hands its contents to a new node. */
    method PushRoot(pos: nat) returns (y: Id)
      requires Core(NONE) && root in nodes && !nodes[root].leaf && |nodes[root].values| == cap && pos <= cap
      modifies this`nodes, this`info, this`home, this`nextId
      ensures nextId > old(nextId)
      ensures Core(root) && home.Keys == old(home.Keys) && root in nodes && |nodes[root].values| == 0
      ensures !nodes[root].leaf
      ensures Travelled(old(nodes), old(info), old(root), pos, nodes, info, y, pos)
      ensures y in nodes && y != root && nodes[y].parent == root && SameInside(old(nodes[root]), nodes[y])
    {
      hide NodeOk, Travelled, Kids, Linked, Filled, Rehang;
      y := nextId;
      nextId := nextId + 1;
      RootFacts(nodes, info, home, root);
      PushKeeps(nodes, info, home, root, y);
      PushTravels(nodes, info, home, root, y, pos);
      PushFilled(nodes, root, y, cap);
      ChildrenAreKids(nodes, info, home, root, root);
      PushSteps(nodes, info, home, root, y);
      var R := nodes[root];
      SetChildren(R.children, root, 0, y, 0);
      nodes := nodes[root := R.(values := [], children := [y])][y := R.(parent := root, position := 0)];
      info := PushedInfo(info, root, y);
      home := PushedHome(home, root, y);
    }

    /** The last step of `rebalance_or_split`: splits a full node whose parent has room. */
    method SplitFor(x: Id, pos: nat, ghost e: Id) returns (y: Id, pos': nat)
      requires Core(e) && x in nodes && x != root && |nodes[x].values| == cap && pos <= cap
      requires nodes[x].parent in nodes && |nodes[nodes[x].parent].values| < cap && (e == NONE || e == nodes[x].parent)
      modifies this`nodes, this`info, this`home, this`rightmost, this`nextId
      ensures Core(y) && home.Keys == old(home.Keys) && y in nodes && |nodes[y].values| < cap
      ensures Travelled(old(nodes), old(info), x, pos, nodes, info, y, pos')
      ensures nodes[root].leaf == old(nodes[root].leaf) && nextId == old(nextId) + 1
      ensures x in nodes
      ensures |nodes[x].values| == if pos == 0 then 0 else if pos == cap then cap - 1 else cap - cap / 2 - 1
    {
      hide Linked, NodeOk, Travelled, Split, SplitInfo;
      RootFacts(nodes, info, home, root);
      var dest := if pos == 0 then cap - 1 else if pos == nodes[x].maxCount then 0 else cap / 2;
      var k := cap - dest - 1;
      ghost var before, before', h := nodes, info, home;
      var q, p := nodes[x].parent, nodes[x].position;
      ParentFacts(nodes, info, home, root, x);
      assert NodeFilled(nodes[x], false, cap, x == e);
      var r := SplitNode(x, k);
      y, pos' := x, pos;
      SplitCounts(before, q, p, x, k, r, cap);
      if pos > |nodes[x].values| {
        pos' := pos - |nodes[x].values| - 1;
        y := r;
      }
      SplitTravels(before, before', h, root, q, p, x, k, r, cap, pos, y, pos');
      SplitFilled(before, before', root, q, p, x, k, r, cap, e, y);
      SplitEdges(before, before', x, k, r, leftmost, old(rightmost));
    }

    /** `rebalance_or_split`: makes room at a full node for one more value at a position. */
    method RebalanceOrSplit(x: Id, pos: nat) returns (y: Id, pos': nat)
      requires Core(NONE) && x in nodes && |nodes[x].values| == cap && pos <= cap
      modifies this
      ensures Core(y) && home.Keys == old(home.Keys) && y in nodes && |nodes[y].values| < cap
      ensures Travelled(old(nodes), old(info), x, pos, nodes, info, y, pos')
      ensures !nodes[root].leaf && nextId >= old(nextId)
      ensures nextId == old(nextId) <==>
                old(x != root && (GivesLeft(nodes, x, pos, cap) || GivesRight(nodes, x, pos, cap)))
      ensures size == if old(nodes[root].leaf) then cap else old(size)
      decreases info[root].level - info[x].level
    {
      hide Linked, NodeOk, Travelled, SameBelow;
      RootFacts(nodes, info, home, root);
      if x == root {
        var x' := GrowRoot(pos);
        ghost var mid, mid' := nodes, info;
        RootFacts(nodes, info, home, root);
        y, pos' := SplitFor(x', pos, root);
        TravelTwice(old(nodes), old(info), x, pos, mid, mid', x', pos, nodes, info, y, pos');
        return;
      }
      ParentFacts(nodes, info, home, root, x);
      var done;
      done, y, pos' := TryNeighbours(x, pos);
      if done { return; }
      var q, p := nodes[x].parent, nodes[x].position;
      assert NodeFilled(nodes[q], q == root, cap, false) && NodeFilled(nodes[x], false, cap, false);
      ghost var e := NONE;
      if |nodes[q].values| == cap {
        var q', p' := RebalanceOrSplit(q, p);
        e := q';
        ParentMoves(old(nodes), old(info), x, q, p, nodes, info, q', p');
        StayTravels(old(nodes), old(info), old(home), old(root), x, pos, nodes, info, home, root, old(info[q].level));
        RootFacts(nodes, info, home, root);
      } else {
        SameBelowSelf(nodes, info, info[q].level);
        StayTravels(nodes, info, home, root, x, pos, nodes, info, home, root, info[q].level);
      }
      ghost var mid, mid' := nodes, info;
      y, pos' := SplitFor(x, pos, e);
      TravelTwice(old(nodes), old(info), x, pos, mid, mid', x, pos, nodes, info, y, pos');
    }

    /** `internal_locate`: the leaf and the position where `k` belongs. */
    method Locate(k: int) returns (x: Id, pos: nat)
      requires Core(NONE) || Core(root)
      requires -1 < k < TWO_64
      ensures x in nodes && x in info && nodes[x].leaf && pos <= |nodes[x].values|
      ensures LeftOf(nodes[x].values, pos, info[x].lo) < k <= RightOf(nodes[x].values, pos, info[x].hi)
      ensures k in home ==> RightOf(nodes[x].values, pos, info[x].hi) == k
    {
      hide Linked, Filled, Covers;
      RootFacts(nodes, info, home, root);
      RootOnPath(nodes, info, home, root, k);
      x := root;
      pos := FirstNotLess(x, k);
      while !nodes[x].leaf
        invariant OnPath(nodes, info, home, x, k) && pos <= |nodes[x].values|
        invariant LeftOf(nodes[x].values, pos, info[x].lo) < k <= RightOf(nodes[x].values, pos, info[x].hi)
        decreases info[x].level
      {
        ChildOnPath(nodes, info, home, root, x, k, pos);
        x := nodes[x].children[pos];
        pos := FirstNotLess(x, k);
      }
      FoundAtLeaf(nodes, info, home, root, x, k, pos);
    }

    /** `lower_bound` in one node. */
    method FirstNotLess(x: Id, k: int) returns (pos: nat)
      requires Linked(nodes, info, home, root) && x in nodes && x in info && Covers(info[x], k)
      ensures pos <= |nodes[x].values|
      ensures LeftOf(nodes[x].values, pos, info[x].lo) < k <= RightOf(nodes[x].values, pos, info[x].hi)
    {
      hide Linked;
      NodeKeys(nodes, info, home, root, x);
      pos := LowerBound(nodes[x].values, k, info[x].lo, info[x].hi);
    }

    /** `internal_last`: the next value at or after a position, climbing out of exhausted nodes. */
    method InternalLast(x0: Id, pos0: nat) returns (found: bool, x: Id, pos: nat)
      requires Linked(nodes, info, home, root) && x0 in nodes && x0 in info && pos0 <= |nodes[x0].values|
      ensures found ==> x in nodes && pos < |nodes[x].values|
      ensures found ==> nodes[x].values[pos] == RightOf(nodes[x0].values, pos0, info[x0].hi)
      ensures !found ==> RightOf(nodes[x0].values, pos0, info[x0].hi) == TWO_64
    {
      hide Linked;
      RootFacts(nodes, info, home, root);
      x, pos := x0, pos0;
      while pos == |nodes[x].values|
        invariant x in nodes && x in info && pos <= |nodes[x].values|
        invariant RightOf(nodes[x].values, pos, info[x].hi) == RightOf(nodes[x0].values, pos0, info[x0].hi)
        decreases info[root].level - info[x].level
      {
        if x == root {
          RootSpan(nodes, info, home, root);
          return false, x, pos;
        }
        ParentFacts(nodes, info, home, root, x);
        ParentBound(nodes, info, home, root, x);
        pos := nodes[x].position;
        x := nodes[x].parent;
      }
      found := true;
    }

    /** `internal_insert` at a position of a leaf; only a new root is still empty. */
    method InternalInsert(x: Id, pos: nat, k: int, ghost e: Id) returns (z: Id, i: nat)
      requires Core(e) && root in nodes && (e == NONE || (e == root && nodes[root].leaf && |nodes[root].values| == 0))
      requires x in nodes && nodes[x].leaf && Fits(nodes, info, x, pos, k) && k !in home
      requires !nodes[root].leaf ==> size == |home.Keys|
      modifies this
      ensures Valid() && root != NONE && home.Keys == old(home.Keys) + {k}
      ensures z in nodes && i < |nodes[z].values| && nodes[z].values[i] == k
    {
      hide Linked, Filled, Travelled;
      RootFacts(nodes, info, home, root);
      LeafSize(nodes, root, cap, e, x);
      if |nodes[x].values| == nodes[x].maxCount {
        FilledExact(nodes, root, cap, e);
        if nodes[x].maxCount < cap {
          z := RegrowRoot(x);
          i := pos;
          PutKey(z, i, k, NONE);
        } else {
          CountKeys(nodes, info, home, root);
          z, i := RebalanceOrSplit(x, pos);
          TravelFits(old(nodes), old(info), x, pos, nodes, info, z, i, k);
          FullLeaf(nodes, info, home, root, cap, z);
          RootFacts(nodes, info, home, root);
          size := size + 1;
          PutKey(z, i, k, z);
        }
      } else {
        if !nodes[root].leaf { size := size + 1; }
        z, i := x, pos;
        PutKey(x, pos, k, e);
      }
    }

    /** `insert_value` in a leaf with room. */
    method PutKey(x: Id, pos: nat, k: int, ghost e: Id)
      requires Core(e) && (e == NONE || e == x) && root in nodes
      requires x in nodes && nodes[x].leaf && |nodes[x].values| < nodes[x].maxCount && Fits(nodes, info, x, pos, k)
      requires k !in home
      requires !nodes[root].leaf ==> size == |home.Keys| + 1
      modifies this`nodes, this`home
      ensures Valid() && root != NONE && home.Keys == old(home.Keys) + {k}
      ensures x in nodes && pos < |nodes[x].values| && nodes[x].values[pos] == k
    {
      hide Linked, Filled;
      RootFacts(nodes, info, home, root);
      InsertKeeps(nodes, info, home, root, x, pos, k);
      InsertFilled(nodes, root, cap, e, x, pos, k);
      nodes := Inserted(nodes, x, pos, k);
      home := home[k := x];
      assert home.Keys == old(home.Keys) + {k};
    }

    /** The first leaf root is smaller than a node; it is replaced by a bigger one. */
    method RegrowRoot(x: Id) returns (y: Id)
      requires Core(NONE) && x in nodes && |nodes[x].values| == nodes[x].maxCount < cap
      modifies this
      ensures Core(NONE) && y == root && y in nodes && nodes[root].leaf && home.Keys == old(home.Keys)
      ensures y in info && info[y] == old(info[x]) && nodes[y].values == old(nodes[x].values)
      ensures |nodes[y].values| < nodes[y].maxCount
    {
      hide Linked, Filled;
      RootFacts(nodes, info, home, root);
      SmallIsRoot(nodes, root, cap, x);
      var bigger := if cap < 2 * nodes[x].maxCount then cap else 2 * nodes[x].maxCount;
      y := nextId;
      nextId := nextId + 1;
      RegrowKeeps(nodes, info, home, root, y, bigger);
      RegrowFilled(nodes[root], y, cap, bigger);
      RootSpan(nodes, info, home, root);
      nodes := Alone(nodes[root], y, bigger);
      info := map[y := info[root]];
      home := map k | k in home :: y;
      leftmost, rightmost, root := y, y, y;
    }

    /** `insert_unique`: the key goes to its sorted place, unless it is there already; in either case the iterator
        `(z, i)` is where it is. */
    method InsertUnique(k: int) returns (z: Id, i: nat, inserted: bool)
      requires Valid() && -1 < k < TWO_64
      modifies this
      ensures Valid()
      ensures inserted <==> k !in old(Keys())
      ensures Keys() == if inserted then SortedInsert(old(Keys()), k) else old(Keys())
      ensures root != NONE && z in nodes && i < |nodes[z].values| && nodes[z].values[i] == k
    {
      hide Linked, InOrder, Filled, SortedInsert;
      ghost var s, h, e := Keys(), home, NONE;
      if root == NONE {
        MakeRoot();
        e := root;
      } else {
        TreeLists(nodes, info, home, root);
      }
      RootFacts(nodes, info, home, root);
      var x, pos := Locate(k);
      var found;
      found, z, i := InternalLast(x, pos);
      if found && nodes[z].values[i] <= k {
        RemovedHome(nodes, info, home, root, z, i);
        EmptyHome(h);
        return z, i, false;
      }
      assert k !in home;
      z, i := InternalInsert(x, pos, k, e);
      TreeLists(nodes, info, home, root);
      InsertedOrder(s, InOrder(nodes, info, home, root, root), h, home, k);
      inserted := true;
    }

    /** The empty tree gets a leaf root with room for one value. */
    method MakeRoot()
      requires Valid() && root == NONE
      modifies this
      ensures Core(root) && root in nodes && nodes[root].leaf && |nodes[root].values| == 0 && home == map[]
      ensures root != NONE
    {
      var id := nextId;
      nextId := nextId + 1;
      NewRootLinked(id, 1);
      nodes := map[id := Node(true, [], [], NONE, 0, 1)];
      info, home := map[id := Info(0, -1, TWO_64)], map[];
      root, leftmost, rightmost := id, id, id;
    }

    /** `try_merge_or_rebalance` for a node below the minimum; afterwards only a parent that lost a value may be
        empty. The position is now `pos'` of `y`, still between the same keys. */
    method TryMergeOrRebalance(x: Id, pos: nat) returns (merged: bool, y: Id, pos': nat)
      requires Core(x) && x in nodes && x != root && |nodes[x].values| < cap / 2
      modifies this`nodes, this`info, this`home, this`rightmost
      ensures home.Keys == old(home.Keys) && y in nodes && nodes[y].parent == old(nodes[x].parent)
      ensures root in nodes && root in info && nodes[y].parent in nodes && nodes[y].parent in info
      ensures Core(if merged then nodes[y].parent else NONE)
      ensures info[nodes[y].parent].level == old(info[x].level) + 1 && info[root].level == old(info[root].level)
      ensures pos <= old(|nodes[x].values|) ==> Travelled(old(nodes), old(info), x, pos, nodes, info, y, pos')
      ensures y in info && nodes[y].leaf == old(nodes[x].leaf)
      ensures SameBelow(old(nodes), old(info), nodes, info, old(info[x].level))
      ensures merged <==> old(FitsBeside(nodes, x, -1, cap)) || old(FitsBeside(nodes, x, 1, cap))
      ensures !merged ==> y == x && |nodes[x].values| == old(AfterPull(nodes, x, pos, cap))
    {
      hide Linked, Filled, Neighbours, Travelled, SameBelow;
      RootFacts(nodes, info, home, root);
      ParentFacts(nodes, info, home, root, x);
      var p := nodes[x].position;
      var q := nodes[x].parent;
      ParentHasKey(nodes, root, cap, x, q);
      if p > 0 {
        var left := nodes[q].children[p - 1];
        NeighbourFacts(nodes, info, home, root, q, p - 1, left, x);
        OtherSize(nodes, root, cap, x, left, q, info, home, p - 1);
        if 1 + |nodes[left].values| + |nodes[x].values| <= nodes[left].maxCount {
          pos' := pos + 1 + |nodes[left].values|;
          MergePair(left, x, x, pos);
          return true, left, pos';
        }
      }
      if p < |nodes[q].values| {
        var right := nodes[q].children[p + 1];
        NeighbourFacts(nodes, info, home, root, q, p, x, right);
        OtherSize(nodes, root, cap, x, right, q, info, home, p + 1);
        if 1 + |nodes[x].values| + |nodes[right].values| <= nodes[right].maxCount {
          MergePair(x, right, x, pos);
          return true, x, pos;
        }
      }
      pos' := PullKeys(x, pos);
      return false, x, pos';
    }

    /** Keys move from the right neighbour of `x` if it has more than half a node of them. */
    method PullRight(x: Id, pos: nat) returns (done: bool, pos': nat)
      requires Core(x) && x in nodes && x != root && |nodes[x].values| < cap / 2
      modifies this`nodes, this`info, this`home
      ensures x in nodes && x in old(info) && home.Keys == old(home.Keys) && SameLevels(old(info), info)
      ensures !done ==> nodes == old(nodes) && info == old(info) && home == old(home) && pos' == pos
      ensures done ==> Core(NONE)
      ensures done ==> nodes[x].parent == old(nodes[x].parent) && nodes[x].leaf == old(nodes[x].leaf)
      ensures done ==> SameBelow(old(nodes), old(info), nodes, info, old(info)[x].level)
      ensures done && pos <= old(|nodes[x].values|) ==>
                Travelled(old(nodes), old(info), x, pos, nodes, info, x, pos')
      ensures done <==> old(Beside(nodes, x, 1) > cap / 2 && (|nodes[x].values| == 0 || pos > 0))
      ensures done ==> |nodes[x].values| == old(|nodes[x].values| + Half(Beside(nodes, x, 1), |nodes[x].values|))
    {
      hide Linked, Filled, Neighbours, Travelled, SameBelow;
      RootFacts(nodes, info, home, root);
      ParentFacts(nodes, info, home, root, x);
      var p := nodes[x].position;
      var q := nodes[x].parent;
      ParentHasKey(nodes, root, cap, x, q);
      if p < |nodes[q].values| {
        var right := nodes[q].children[p + 1];
        NeighbourFacts(nodes, info, home, root, q, p, x, right);
        OtherSize(nodes, root, cap, x, right, q, info, home, p + 1);
        if |nodes[right].values| > cap / 2 && (|nodes[x].values| == 0 || pos > 0) {
          var toMove := (|nodes[right].values| - |nodes[x].values|) / 2;
          toMove := Smaller(toMove, |nodes[right].values| - 1);
          PullFromRight(x, right, toMove, pos);
          return true, pos;
        }
      }
      return false, pos;
    }

    /** Keys move from the left neighbour of `x` if it has more than half a node of them. */
    method PullLeft(x: Id, pos: nat) returns (done: bool, pos': nat)
      requires Core(x) && x in nodes && x != root && |nodes[x].values| < cap / 2
      modifies this`nodes, this`info, this`home
      ensures x in nodes && x in old(info) && home.Keys == old(home.Keys) && SameLevels(old(info), info)
      ensures !done ==> nodes == old(nodes) && info == old(info) && home == old(home) && pos' == pos
      ensures done ==> Core(NONE)
      ensures done ==> nodes[x].parent == old(nodes[x].parent) && nodes[x].leaf == old(nodes[x].leaf)
      ensures done ==> SameBelow(old(nodes), old(info), nodes, info, old(info)[x].level)
      ensures done && pos <= old(|nodes[x].values|) ==>
                Travelled(old(nodes), old(info), x, pos, nodes, info, x, pos')
      ensures done <==> old(Beside(nodes, x, -1) > cap / 2 && (|nodes[x].values| == 0 || pos < |nodes[x].values|))
      ensures done ==> |nodes[x].values| == old(|nodes[x].values| + Half(Beside(nodes, x, -1), |nodes[x].values|))
    {
      hide Linked, Filled, Neighbours, Travelled, SameBelow;
      RootFacts(nodes, info, home, root);
      ParentFacts(nodes, info, home, root, x);
      var p := nodes[x].position;
      var q := nodes[x].parent;
      ParentHasKey(nodes, root, cap, x, q);
      if p > 0 {
        var left := nodes[q].children[p - 1];
        NeighbourFacts(nodes, info, home, root, q, p - 1, left, x);
        OtherSize(nodes, root, cap, x, left, q, info, home, p - 1);
        if |nodes[left].values| > cap / 2 && (|nodes[x].values| == 0 || pos < |nodes[x].values|) {
          var toMove := (|nodes[left].values| - |nodes[x].values|) / 2;
          toMove := Smaller(toMove, |nodes[left].values| - 1);
          PullFromLeft(left, x, toMove, pos);
          return true, pos + toMove;
        }
      }
      return false, pos;
    }

    /** The rest of `try_merge_or_rebalance`: keys move from a neighbour that has more than half a node of them. */
    method PullKeys(x: Id, pos: nat) returns (pos': nat)
      requires Core(x) && x in nodes && x != root && |nodes[x].values| < cap / 2
      requires !FitsBeside(nodes, x, -1, cap) && !FitsBeside(nodes, x, 1, cap)
      modifies this`nodes, this`info, this`home
      ensures home.Keys == old(home.Keys) && x in nodes && nodes[x].parent == old(nodes[x].parent)
      ensures root in nodes && root in info && nodes[x].parent in nodes && nodes[x].parent in info
      ensures Core(NONE) && info[root].level == old(info[root].level)
      ensures info[nodes[x].parent].level == old(info[x].level) + 1
      ensures pos <= old(|nodes[x].values|) ==> Travelled(old(nodes), old(info), x, pos, nodes, info, x, pos')
      ensures x in info && nodes[x].leaf == old(nodes[x].leaf)
      ensures SameBelow(old(nodes), old(info), nodes, info, old(info[x].level))
      ensures |nodes[x].values| == old(AfterPull(nodes, x, pos, cap))
    {
      hide Linked, Filled, Neighbours, Travelled, SameBelow;
      RootFacts(nodes, info, home, root);
      ParentFacts(nodes, info, home, root, x);
      ParentHasKey(nodes, root, cap, x, nodes[x].parent);
      var done;
      done, pos' := PullRight(x, pos);
      if !done {
        done, pos' := PullLeft(x, pos);
      }
      if !done {
        FilledExact(nodes, root, cap, x);
        NothingMoved(nodes, info, home, root, x, pos);
        NothingBelowMoved(nodes, info, info[x].level);
      }
      RootFacts(nodes, info, home, root);
      ParentFacts(nodes, info, home, root, x);
    }

    /** `merge_nodes`: two neighbours, one of which may be empty, become one. */
    method MergePair(l: Id, r: Id, ghost x: Id, ghost pos: nat)
      requires Core(x) && (x == l || x == r)
      requires l in nodes && r in nodes && nodes[l].parent in nodes
      requires Neighbours(nodes, nodes[l].parent, nodes[l].position, l, r)
      requires |nodes[l].values| + 1 + |nodes[r].values| <= cap
      modifies this`nodes, this`info, this`home, this`rightmost
      ensures var q := old(nodes[l].parent);
              Core(q) && q in nodes && q in info && q in old(info) && info[q] == old(info)[q]
      ensures home.Keys == old(home.Keys) && root in nodes && root in info && root in old(info)
      ensures info[root].level == old(info)[root].level && l in nodes && nodes[l].parent == old(nodes[l].parent)
      ensures pos <= old(|nodes[x].values|) ==>
                Travelled(old(nodes), old(info), x, pos, nodes, info, l,
                    if x == l then pos else pos + 1 + old(|nodes[l].values|))
      ensures l in info && x in old(info) && nodes[l].leaf == old(nodes[x].leaf)
      ensures SameBelow(old(nodes), old(info), nodes, info, old(info)[x].level)
    {
      hide Linked, Filled, Travelled, SameBelow;
      RootFacts(nodes, info, home, root);
      var q, p := nodes[l].parent, nodes[l].position;
      NeighbourFacts(nodes, info, home, root, q, p, l, r);
      MergeTravels(nodes, info, home, root, q, p, l, r, x, 0);
      if pos <= |nodes[x].values| { MergeTravels(nodes, info, home, root, q, p, l, r, x, pos); }
      MergeBelow(nodes, info, q, p, l, r);
      MergeFilled(nodes, info, root, q, p, l, r, cap, x);
      MergeEdges(nodes, info, home, root, q, p, l, r, leftmost, rightmost);
      MergeNodes(l, r);
    }

    /** Keys move from the right neighbour `r` into `x`. */
    method PullFromRight(x: Id, r: Id, t: nat, ghost pos: nat)
      requires Core(x) && x in nodes && r in nodes && nodes[x].parent in nodes
      requires Neighbours(nodes, nodes[x].parent, nodes[x].position, x, r)
      requires 1 <= t < |nodes[r].values| && |nodes[x].values| + t <= cap
      modifies this`nodes, this`info, this`home
      ensures Core(NONE) && home.Keys == old(home.Keys) && SameLevels(old(info), info) && nodes.Keys == old(nodes.Keys)
      ensures nodes[x].parent == old(nodes[x].parent) && nodes[x].leaf == old(nodes[x].leaf)
      ensures |nodes[x].values| == old(|nodes[x].values|) + t
      ensures x in old(info) && SameBelow(old(nodes), old(info), nodes, info, old(info)[x].level)
      ensures pos <= old(|nodes[x].values|) ==> Travelled(old(nodes), old(info), x, pos, nodes, info, x, pos)
    {
      hide Linked, Filled, Rebalanced, RebalancedInfo, Travelled, SameBelow;
      RootFacts(nodes, info, home, root);
      var q, p, a := nodes[x].parent, nodes[x].position, |nodes[x].values|;
      ShiftReady(nodes, info, home, root, q, p, x, r);
      ghost var before, before', h := nodes, info, home;
      OtherSize(nodes, root, cap, x, r, q, info, home, p + 1);
      RebalanceRightToLeft(x, r, t);
      MoveFilled(before, before', h, root, q, p, x, r, a + t, cap, x);
      MoveEdges(before, before', h, root, q, p, x, r, a + t, leftmost, rightmost);
      MoveCounts(before, before', h, root, q, p, x, r, a + t);
      MoveLevels(before, before', q, p, x, r, a + t);
      MoveBelow(before, before', h, root, q, p, x, r, a + t);
      MoveKeepsParent(before, before', h, root, q, p, x, r, a + t, x);
      if pos <= |before[x].values| { MoveTravels(before, before', h, root, q, p, x, r, a + t, x, pos, x, pos); }
    }

    /** Keys move from the left neighbour `l` into `x`. */
    method PullFromLeft(l: Id, x: Id, t: nat, ghost pos: nat)
      requires Core(x) && l in nodes && x in nodes && nodes[l].parent in nodes
      requires Neighbours(nodes, nodes[l].parent, nodes[l].position, l, x)
      requires 1 <= t < |nodes[l].values| && |nodes[x].values| + t <= cap
      modifies this`nodes, this`info, this`home
      ensures Core(NONE) && home.Keys == old(home.Keys) && SameLevels(old(info), info) && nodes.Keys == old(nodes.Keys)
      ensures nodes[x].parent == old(nodes[x].parent) && nodes[x].leaf == old(nodes[x].leaf)
      ensures |nodes[x].values| == old(|nodes[x].values|) + t
      ensures x in old(info) && SameBelow(old(nodes), old(info), nodes, info, old(info)[x].level)
      ensures pos <= old(|nodes[x].values|) ==> Travelled(old(nodes), old(info), x, pos, nodes, info, x, pos + t)
    {
      hide Linked, Filled, Rebalanced, RebalancedInfo, Travelled, SameBelow;
      RootFacts(nodes, info, home, root);
      var q, p, b := nodes[l].parent, nodes[l].position, |nodes[l].values|;
      ShiftReady(nodes, info, home, root, q, p, l, x);
      ghost var before, before', h := nodes, info, home;
      OtherSize(nodes, root, cap, x, l, q, info, home, p);
      RebalanceLeftToRight(l, x, t);
      MoveFilled(before, before', h, root, q, p, l, x, b - t, cap, x);
      MoveEdges(before, before', h, root, q, p, l, x, b - t, leftmost, rightmost);
      MoveCounts(before, before', h, root, q, p, l, x, b - t);
      MoveLevels(before, before', q, p, l, x, b - t);
      MoveBelow(before, before', h, root, q, p, l, x, b - t);
      MoveKeepsParent(before, before', h, root, q, p, l, x, b - t, x);
      if pos <= |before[x].values| { MoveTravels(before, before', h, root, q, p, l, x, b - t, x, pos, x, pos + t); }
    }

    /** `try_shrink`: an empty root gives way to its only child, or to the empty tree. */
    method TryShrink(ghost y: Id)
      requires Core(root) && root in nodes && (!nodes[root].leaf ==> size == |home.Keys|)
      requires y in nodes && y in info && nodes[y].leaf
      modifies this
      ensures Valid() && home.Keys == old(home.Keys)
      ensures root != NONE ==> LeafKept(old(nodes), old(info), nodes, info, y)
    {
      hide Linked, Filled;
      RootFacts(nodes, info, home, root);
      if |nodes[root].values| > 0 {
        FilledExact(nodes, root, cap, root);
        return;
      }
      if nodes[root].leaf {
        NoKeys(nodes, info, home, root);
        nodes, root, info := map[], NONE, map[];
        return;
      }
      RootChild(nodes, info, home, root);
      var child := nodes[root].children[0];
      OnlyChild(nodes, info, home, root, child);
      if nodes[child].leaf {
        LowerRoot(child, y);
      } else {
        PullRoot(child, y);
      }
    }

    /** A leaf that is the only child becomes the root. */
    method LowerRoot(child: Id, ghost y: Id)
      requires Core(root) && EmptyRoot(nodes, root, child) && nodes[child].leaf
      requires y in nodes && y in info && nodes[y].leaf && y != root
      modifies this`nodes, this`info, this`root
      ensures Valid() && home.Keys == old(home.Keys) && LeafKept(old(nodes), old(info), nodes, info, y)
    {
      hide Linked, Filled, Lowered;
      RootFacts(nodes, info, home, root);
      OnlyChild(nodes, info, home, root, child);
      LowerKeeps(nodes, info, home, root, child);
      LowerFilled(nodes, root, child, cap);
      LowerShape(nodes, root, child);
      LowerKeepsLeaf(nodes, info, root, child, y);
      nodes := Lowered(nodes, root, child);
      info := info - {root};
      root := child;
    }

    /** The contents of an internal only child move into the root. */
    method PullRoot(child: Id, ghost y: Id)
      requires Core(root) && EmptyRoot(nodes, root, child) && !nodes[root].leaf && !nodes[child].leaf
      requires size == |home.Keys| && y in nodes && y in info && nodes[y].leaf
      modifies this`nodes, this`info, this`home
      ensures Valid() && home.Keys == old(home.Keys) && LeafKept(old(nodes), old(info), nodes, info, y)
    {
      hide Linked, Filled, Pulled, PulledInfo, PulledHome, Edges;
      RootFacts(nodes, info, home, root);
      OnlyChild(nodes, info, home, root, child);
      PullKeeps(nodes, info, home, root, child);
      PullFilled(nodes, root, child, cap);
      InternalLevel(nodes, info, home, root, child);
      PullShape(nodes, info, root, child, leftmost, rightmost);
      PullKeepsLeaf(nodes, info, root, child, y);
      HandUp(child);
      info := PulledInfo(info, root, child);
      home := PulledHome(home, root, child);
    }

    /** The `swap` of the root with its only child, and the deletion of the child. */
    method HandUp(child: Id)
      requires Linked(nodes, info, home, root) && EmptyRoot(nodes, root, child) && child != root
      modifies this`nodes
      ensures nodes == old(Pulled(nodes, root, child))
    {
      hide Linked, Kids, Rehang, Pulled, TakenOver;
      PullSteps(nodes, info, home, root, child);
      ChildrenAreKids(nodes, info, home, root, child);
      var C, R := nodes[child], nodes[root];
      SetChildren(C.children, child, 0, root, 0);
      nodes := TakenOver(nodes, root, R, child, C);
    }

    /** `--iter` from a value of an internal node: the leaf whose last value is its predecessor. */
    method Predecessor(n: Id, idx: nat) returns (x: Id)
      requires Core(NONE) && n in nodes && !nodes[n].leaf && idx < |nodes[n].values|
      ensures x in nodes && Precedes(nodes, info, n, idx, x)
    {
      hide Linked, Filled, Descending, Precedes;
      RootFacts(nodes, info, home, root);
      StartDescent(nodes, info, home, root, n, idx);
      x := nodes[n].children[idx];
      DescendingIn(nodes, info, n, idx, x);
      while !nodes[x].leaf
        invariant x in nodes && x in info && Descending(nodes, info, n, idx, x)
        decreases info[x].level
      {
        FilledNode(nodes, root, cap, x);
        DescendFurther(nodes, info, home, root, n, idx, x);
        x := nodes[x].children[|nodes[x].values|];
        DescendingIn(nodes, info, n, idx, x);
      }
      FilledNode(nodes, root, cap, x);
      EndDescent(nodes, info, home, root, n, idx, x);
    }

    /** The first part of `erase`: the key leaves the tree, from a leaf in either case. */
    method TakeOut(n: Id, idx: nat) returns (x: Id, pos: nat)
      requires Core(NONE) && n in nodes && idx < |nodes[n].values|
      modifies this`nodes, this`info, this`home
      ensures Core(x) && x in nodes && x in info && old(nodes[n].values[idx]) in old(home)
      ensures home.Keys == old(home.Keys) - {old(nodes[n].values[idx])}
      ensures root in nodes && nodes[root].leaf == old(root in nodes && nodes[root].leaf)
      ensures nodes[x].leaf && pos <= |nodes[x].values|
      ensures Bounded(home, old(nodes[n].values[idx]), NextAt(nodes, info, x, pos), old(!nodes[n].leaf))
    {
      hide Linked, Filled, Precedes, Bounded, NextAt, Follows;
      RootFacts(nodes, info, home, root);
      ghost var k := nodes[n].values[idx];
      if nodes[n].leaf {
        RemoveKeeps(nodes, info, home, root, n, idx);
        RemoveFilled(nodes, root, cap, n, idx);
        LeafBounded(nodes, info, home, root, n, idx);
        x, pos := n, idx;
        nodes := Removed(nodes, n, idx);
        home := home - {k};
      } else {
        x := Predecessor(n, idx);
        PrecedesFacts(nodes, info, home, root, n, idx, x);
        ReplaceKeeps(nodes, info, home, root, n, idx, x);
        ReplaceFilled(nodes, root, cap, n, idx, x);
        ReplaceBounded(nodes, info, home, root, n, idx, x);
        pos := |nodes[x].values| - 1;
        ghost var p := nodes[x].values[pos];
        nodes := Replaced(nodes, n, idx, x);
        info := ReplacedInfo(info, k, p);
        home := (home - {k})[p := n];
      }
    }

    /** `++iter`: the next key in order, or the end. */
    method Increment(x0: Id, pos0: nat) returns (found: bool, x: Id, pos: nat)
      requires Core(NONE) && x0 in nodes && pos0 < |nodes[x0].values|
      ensures found ==> x in nodes && pos < |nodes[x].values|
      ensures found ==> Follows(home, nodes[x0].values[pos0], nodes[x].values[pos])
      ensures !found ==> NoneAbove(home, nodes[x0].values[pos0])
    {
      hide Linked, Filled, Edges;
      RootFacts(nodes, info, home, root);
      ghost var v := nodes[x0].values[pos0];
      if nodes[x0].leaf {
        found, x, pos := InternalLast(x0, pos0 + 1);
        AfterLeafValue(nodes, info, home, root, x0, pos0);
        if found { RemovedHome(nodes, info, home, root, x, pos); }
        return;
      }
      ChildToTheRight(nodes, info, home, root, x0, pos0);
      x := nodes[x0].children[pos0 + 1];
      while !nodes[x].leaf
        invariant x in nodes && x in info && info[x].lo == v
        decreases info[x].level
      {
        FirstChild(nodes, info, home, root, x);
        x := nodes[x].children[0];
      }
      FilledNode(nodes, root, cap, x);
      NothingBetween(nodes, info, home, root, x, 0);
      RemovedHome(nodes, info, home, root, x, 0);
      return true, x, 0;
    }

    /** Iterating from `begin()` to `end()` visits the keys in order, each once. */
    method Walk() returns (s: seq<int>)
      requires Valid()
      ensures s == Keys()
    {
      hide Linked, Filled, Follows, NoneAbove, InOrder, WalkedTo;
      s := [];
      if root == NONE { return; }
      var x, pos, more := leftmost, 0, true;
      RootFacts(nodes, info, home, root);
      LeftmostValue(nodes, info, home, root, cap, leftmost, rightmost);
      while more
        invariant x in nodes && pos < |nodes[x].values|
        invariant if more then WalkedTo(home, s, nodes[x].values[pos]) else WalkedAll(home, s)
        decreases if more then 1 + TWO_64 - nodes[x].values[pos] else 0
      {
        var v := nodes[x].values[pos];
        s := s + [v];
        RemovedHome(nodes, info, home, root, x, pos);
        KeysBelowEnd(nodes, info, home, root);
        var y, i;
        more, y, i := Increment(x, pos);
        if more {
          WalkOn(home, s[..|s| - 1], v, nodes[y].values[i]);
          x, pos := y, i;
        } else {
          WalkEnds(home, s[..|s| - 1], v);
        }
        assert s[..|s| - 1] + [v] == s;
      }
      TreeLists(nodes, info, home, root);
      WalkIsOrder(home, s, InOrder(nodes, info, home, root, root));
    }

    /** The loop of `erase` that merges and rebalances on the way up. The leaf position `(x0, pos0)` becomes `(y, at)`,
        before the same next value. */
    method RepairUpwards(x0: Id, pos0: nat) returns (y: Id, at: nat)
      requires Core(x0) && x0 in nodes && x0 in info && nodes[x0].leaf && pos0 <= |nodes[x0].values|
      requires root in nodes && root in info && (!nodes[root].leaf ==> size == |home.Keys|)
      modifies this
      ensures Valid() && home.Keys == old(home.Keys)
      ensures root != NONE ==> y in nodes && y in info && nodes[y].leaf && at <= |nodes[y].values|
      ensures root != NONE ==> NextAt(nodes, info, y, at) == old(NextAt(nodes, info, x0, pos0))
    {
      hide Linked, Filled, SameBelow;
      ghost var ks := home.Keys;
      var x, pos := x0, pos0;
      y, at := x0, pos0;
      while true
        invariant Core(x) && x in nodes && x in info && root in nodes && root in info && home.Keys == ks
        invariant !nodes[root].leaf ==> size == |home.Keys|
        invariant y in nodes && y in info && nodes[y].leaf && at <= |nodes[y].values|
        invariant NextAt(nodes, info, y, at) == old(NextAt(nodes, info, x0, pos0))
        invariant if nodes[x].leaf then x == y && pos == at else info[x].level > info[y].level
        decreases info[root].level - info[x].level
      {
        RootFacts(nodes, info, home, root);
        if x == root {
          TryShrink(y);
          return;
        }
        if |nodes[x].values| >= cap / 2 {
          FilledExact(nodes, root, cap, x);
          return;
        }
        ghost var was, before, before' := x, nodes, info;
        var merged;
        merged, x, pos := TryMergeOrRebalance(x, pos);
        if nodes[x].leaf {
          y, at := x, pos;
        } else {
          BelowKeepsLeaf(before, before', nodes, info, before'[was].level, y);
        }
        RootFacts(nodes, info, home, root);
        if !merged { return; }
        x := nodes[x].parent;
        InternalLevel(nodes, info, home, root, x);
        InternalLevel(nodes, info, home, root, y);
      }
    }

    /** `erase` at an iterator: removes the key there and returns the iterator to the next key, or the end. */
    method EraseAt(n: Id, idx: nat) returns (found: bool, z: Id, i: nat)
      requires Valid() && root != NONE && n in nodes && idx < |nodes[n].values|
      modifies this
      ensures Valid() && old(nodes[n].values[idx]) in old(home)
      ensures home.Keys == old(home.Keys) - {old(nodes[n].values[idx])}
      ensures found ==> root != NONE && z in nodes && i < |nodes[z].values|
      ensures found ==> Follows(home, old(nodes[n].values[idx]), nodes[z].values[i])
      ensures !found ==> NoneAbove(home, old(nodes[n].values[idx]))
    {
      hide Linked, Filled, NextAt, Follows, NoneAbove, Bounded;
      RootFacts(nodes, info, home, root);
      ghost var all, k := home.Keys, nodes[n].values[idx];
      RemovedHome(nodes, info, home, root, n, idx);
      OneLess(all, k);
      var internalDelete := !nodes[n].leaf;
      if !nodes[root].leaf { size := size - 1; }
      var x, pos := TakeOut(n, idx);
      ghost var left := home;
      RootFacts(nodes, info, home, root);
      var y, at := RepairUpwards(x, pos);
      if root == NONE {
        assert NoneAbove(home, k) by { NoKeyAbove(home, k); }
        return false, NONE, 0;
      }
      found, z, i := AfterErased(y, at, internalDelete, k, left);
    }

    /** The last part of `erase`: from the position of the erased key to the next key. */
    method AfterErased(y: Id, at: nat, internalDelete: bool, ghost k: int, ghost left: Home)
        returns (found: bool, z: Id, i: nat)
      requires Core(NONE) && y in nodes && y in info && at <= |nodes[y].values| && left.Keys == home.Keys
      requires Bounded(left, k, NextAt(nodes, info, y, at), internalDelete)
      ensures found ==> z in nodes && i < |nodes[z].values| && Follows(home, k, nodes[z].values[i])
      ensures !found ==> NoneAbove(home, k)
    {
      hide Linked, Filled, Follows, NoneAbove, Bounded;
      found, z, i := InternalLast(y, at);
      if found { RemovedHome(nodes, info, home, root, z, i); }
      KeysBelowEnd(nodes, info, home, root);
      ghost var p := if found then nodes[z].values[i] else 0;
      NextAfter(left, home, k, NextAt(nodes, info, y, at), internalDelete, found, p);
      if found && internalDelete {
        found, z, i := Increment(z, i);
        NextButOne(home, k, p, found, if found then nodes[z].values[i] else 0);
      }
    }

    /** `erase_unique`: removes the key if it is there. */
    method Erase(k: int) returns (erased: bool)
      requires Valid() && -1 < k < TWO_64
      modifies this
      ensures Valid()
      ensures erased <==> k in old(Keys())
      ensures Keys() == SortedRemove(old(Keys()), k)
    {
      hide Linked, InOrder, Filled;
      if root == NONE { return false; }
      ghost var s, h := Keys(), home;
      TreeLists(nodes, info, home, root);
      RootFacts(nodes, info, home, root);
      var x, pos := Locate(k);
      var found, z, i := InternalLast(x, pos);
      if !found || k < nodes[z].values[i] {
        assert k !in home;
        RemoveAbsent(s, k);
        return false;
      }
      RemovedHome(nodes, info, home, root, z, i);
      var more, z', i' := EraseAt(z, i);
      erased := true;
      if root == NONE {
        RemovedOrder(s, [], h, home, k);
      } else {
        TreeLists(nodes, info, home, root);
        RemovedOrder(s, InOrder(nodes, info, home, root, root), h, home, k);
      }
    }

    /** `internal_verify`, on any arena without cycles: true exactly for the accepted trees, whose values it counts. */
    method InternalVerify(id: Id, lo: int, hi: int, ghost rank: Ranks) returns (ok: bool, count: nat)
      requires Acyclic(nodes, rank) && id in nodes
      ensures ok <==> Accepted(nodes, rank, id, lo, hi)
      ensures ok ==> TreeLinked(nodes, rank, id) && count == |Listing(nodes, rank, id)|
      decreases rank[id]
    {
      hide NonDecreasing, Between, Listing, TreeLinked;
      AcceptsExactly(nodes, rank, id, lo, hi);
      var n := nodes[id];
      count := |n.values|;
      if |n.values| == 0 || |n.values| > n.maxCount || n.values[0] < lo || hi < n.values[|n.values| - 1] {
        return false, count;
      }
      ok := ValuesInOrder(n.values);
      if !ok { return; }
      if n.leaf {
        LeafListing(nodes, rank, id);
        return;
      }
      if |n.children| != |n.values| + 1 { return false, count; }
      for i := 0 to |n.children|
        invariant forall j: nat | j < i :: ChildAccepted(nodes, rank, id, j, lo, hi)
        invariant count == |n.values| + ValuesBelow(nodes, rank, id, i)
      {
        var c := n.children[i];
        if c !in nodes || nodes[c].parent != id || nodes[c].position != i {
          assert !ChildLinked(nodes, id, i);
          return false, count;
        }
        var below;
        ok, below := InternalVerify(c, if i == 0 then lo else n.values[i - 1],
            if i == |n.values| then hi else n.values[i], rank);
        if !ok {
          assert !ChildAccepted(nodes, rank, id, i, lo, hi);
          return false, count;
        }
        assert ChildAccepted(nodes, rank, id, i, lo, hi);
        count := count + below;
      }
      assert forall j: nat | j < |n.children| :: ChildAccepted(nodes, rank, id, j, lo, hi);
      AllChildrenAccepted(nodes, rank, id, lo, hi);
      ok := true;
    }

    /** `verify`: a valid tree passes its own test, with its stored size and its two end leaves. */
    method Verify() returns (ok: bool)
      requires Valid()
      ensures ok
    {
      hide Linked, Filled, Accepted, TreeLinked, Listing;
      if root == NONE { return true; }
      RootFacts(nodes, info, home, root);
      RootSpan(nodes, info, home, root);
      ValidIsAccepted(nodes, info, home, root, cap, root);
      ValidIsLinked(nodes, info, home, root, cap, root);
      var count, n;
      ok, count := InternalVerify(root, -1, TWO_64, Levels(info));
      n := Size();
      var l, r := EndLeaves();
      ok := ok && n == count && leftmost == l && rightmost == r && nodes[leftmost].leaf && nodes[rightmost].leaf;
    }

    /** The first and the last leaf, by descent. */
    method EndLeaves() returns (l: Id, r: Id)
      requires Core(NONE)
      ensures l == leftmost && r == rightmost && l in nodes && r in nodes && nodes[l].leaf && nodes[r].leaf
    {
      hide Linked, Filled;
      RootFacts(nodes, info, home, root);
      RootSpan(nodes, info, home, root);
      l, r := root, root;
      while !nodes[l].leaf
        invariant l in nodes && l in info && info[l].lo == -1
        decreases info[l].level
      {
        FirstChild(nodes, info, home, root, l);
        l := nodes[l].children[0];
      }
      while !nodes[r].leaf
        invariant r in nodes && r in info && info[r].hi == TWO_64
        decreases info[r].level
      {
        EndChild(nodes, info, home, root, r);
        r := nodes[r].children[|nodes[r].values|];
      }
      EdgesAreUnique(nodes, info, home, root, cap, l, r, leftmost, rightmost);
    }
  }

  // ----- whole runs -----

  datatype Operation = Add(key: int) | Drop(key: int)

  function Apply(s: seq<int>, op: Operation): (r: seq<int>) {
    match op
    case Add(k) => if k in s then s else SortedInsert(s, k)
    case Drop(k) => SortedRemove(s, k)
  }

  function ApplyAll(s: seq<int>, ops: seq<Operation>): (r: seq<int>) {
    if |ops| == 0 then s else Apply(ApplyAll(s, ops[..|ops| - 1]), ops[|ops| - 1])
  }

  lemma KeysIncrease(tree: BTree)
    requires tree.Valid()
    ensures Increasing(tree.Keys())
  {
    hide Linked, InOrder;
    if tree.root != NONE { TreeLists(tree.nodes, tree.info, tree.home, tree.root); }
  }

  /** After any run the tree is intact and holds what a sorted list would hold, and its size counts them. */
  method Run(tree: BTree, ops: seq<Operation>) returns (size: nat)
    requires tree.Valid() && forall i | 0 <= i < |ops| :: -1 < ops[i].key < TWO_64
    modifies tree
    ensures tree.Valid() && tree.Keys() == ApplyAll(old(tree.Keys()), ops)
    ensures size == |tree.Keys()| && Increasing(tree.Keys())
  {
    hide BTree.Valid, BTree.Keys, SortedInsert, SortedRemove;
    for i := 0 to |ops|
      invariant tree.Valid() && tree.Keys() == ApplyAll(old(tree.Keys()), ops[..i])
    {
      assert ops[..i + 1][..i] == ops[..i];
      match ops[i] {
        case Add(k) => var z, j, inserted := tree.InsertUnique(k);
        case Drop(k) => var erased := tree.Erase(k);
      }
    }
    assert ops[..|ops|] == ops;
    KeysIncrease(tree);
    size := tree.Size();
  }
}
