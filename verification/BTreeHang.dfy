/** Moving children from one parent to another, one `set_child` at a time. */
module BTreeHang {
  import opened Hashing
  import opened BTreeShape
  import opened BTreeSplit
  import opened BTreeMoves

  /** Children `lo` to `hi` of `from` become children of `x`, at positions shifted by `shift`. */
  function Rehung(n: Node, from: Id, lo: nat, hi: nat, x: Id, shift: int): (m: Node) {
    if n.parent == from && lo <= n.position < hi && n.position + shift >= 0
    then n.(parent := x, position := n.position + shift) else n
  }

  function Rehang(nodes: Nodes, from: Id, lo: nat, hi: nat, x: Id, shift: int): (m: Nodes) {
    map id | id in nodes :: Rehung(nodes[id], from, lo, hi, x, shift)
  }

  /** `kids` are children `lo` and following of `from`, and no other node claims their places. */
  ghost predicate Kids(nodes: Nodes, kids: seq<Id>, from: Id, lo: nat) {
    && (forall i | 0 <= i < |kids| ::
         kids[i] in nodes && nodes[kids[i]].parent == from && nodes[kids[i]].position == lo + i)
    && (forall id | id in nodes && nodes[id].parent == from && lo <= nodes[id].position < lo + |kids| ::
         kids[nodes[id].position - lo] == id)
  }

  lemma RehangNone(nodes: Nodes, from: Id, lo: nat, x: Id, shift: int)
    ensures Rehang(nodes, from, lo, lo, x, shift) == nodes
  {
  }

  lemma RehangOne(nodes: Nodes, kids: seq<Id>, from: Id, lo: nat, x: Id, shift: int, i: nat)
    requires Kids(nodes, kids, from, lo) && lo + shift >= 0 && i < |kids|
    ensures kids[i] in nodes
    ensures var m := Rehang(nodes, from, lo, lo + i, x, shift);
            Rehang(nodes, from, lo, lo + i + 1, x, shift) ==
                m[kids[i] := m[kids[i]].(parent := x, position := lo + i + shift)]
  {
    var c := kids[i];
    assert nodes[c].position == lo + i;
    var m, m' := Rehang(nodes, from, lo, lo + i, x, shift), Rehang(nodes, from, lo, lo + i + 1, x, shift);
    forall id | id in nodes ensures m'[id] == m[c := m[c].(parent := x, position := lo + i + shift)][id] {
      if nodes[id].parent == from && nodes[id].position == lo + i { assert kids[nodes[id].position - lo] == id; }
    }
  }

  lemma ChildrenAreKids(nodes: Nodes, info: Infos, home: Home, root: Id, id: Id)
    requires Linked(nodes, info, home, root) && id in nodes
    ensures Kids(nodes, nodes[id].children, id, 0)
    ensures forall c | c in nodes && nodes[c].parent == id :: nodes[c].position < |nodes[id].children|
  {
    assert NodeOk(nodes, info, home, root, id);
    forall i | 0 <= i < |nodes[id].children|
      ensures var c := nodes[id].children[i]; c in nodes && nodes[c].parent == id && nodes[c].position == i
    {
      assert ChildOk(nodes, info, id, i);
    }
    forall c | c in nodes && nodes[c].parent == id
      ensures nodes[c].position < |nodes[id].children| && nodes[id].children[nodes[c].position] == c
    {
      assert NodeOk(nodes, info, home, root, c);
    }
  }

  /** Being children depends only on what the nodes say about that parent. */
  lemma KidsSame(nodes: Nodes, m: Nodes, kids: seq<Id>, from: Id, lo: nat)
    requires Kids(nodes, kids, from, lo) && m.Keys == nodes.Keys
    requires forall id | id in nodes && (nodes[id].parent == from || m[id].parent == from) ::
               m[id].parent == nodes[id].parent && m[id].position == nodes[id].position
    ensures Kids(m, kids, from, lo)
  {
  }

  lemma KidsSlice(nodes: Nodes, kids: seq<Id>, from: Id, i: nat, j: nat)
    requires Kids(nodes, kids, from, 0) && i <= j <= |kids|
    ensures Kids(nodes, kids[i..j], from, i)
  {
    var part := kids[i..j];
    forall n | 0 <= n < |part|
      ensures part[n] in nodes && nodes[part[n]].parent == from && nodes[part[n]].position == i + n
    {
      assert part[n] == kids[i + n];
    }
    forall id | id in nodes && nodes[id].parent == from && i <= nodes[id].position < i + |part|
      ensures part[nodes[id].position - i] == id
    {
      assert kids[nodes[id].position - 0] == id;
    }
  }

  /** `l` with the keys and children of `r`. */
  function Extended(nodes: Nodes, q: Id, p: nat, l: Id, r: Id): (n: Node)
    requires l in nodes && r in nodes && q in nodes && p < |nodes[q].values|
  {
    nodes[l].(values := nodes[l].values + [nodes[q].values[p]] + nodes[r].values,
        children := nodes[l].children + nodes[r].children)
  }

  /** `q` without value `p` and the child after it. */
  function Reduced(n: Node, p: nat): (m: Node)
    requires p < |n.values| && p + 1 < |n.children|
  {
    n.(values := Without(n.values, p), children := Without(n.children, p + 1))
  }

  /** The first loop of `merge`: the children of `r` move to `l`. */
  lemma MergeFirst(nodes: Nodes, info: Infos, home: Home, root: Id, q: Id, p: nat, l: Id, r: Id)
    requires Linked(nodes, info, home, root) && Siblings(nodes, info, q, p, l, r)
    ensures Kids(nodes[l := Extended(nodes, q, p, l, r)], nodes[r].children, r, 0)
  {
    hide Linked, Kids;
    ChildrenAreKids(nodes, info, home, root, r);
    KidsSame(nodes, nodes[l := Extended(nodes, q, p, l, r)], nodes[r].children, r, 0);
  }

  ghost function MergeHalfway(nodes: Nodes, q: Id, p: nat, l: Id, r: Id): (m: Nodes)
    requires l in nodes && r in nodes && q in nodes && p < |nodes[q].values| && p + 1 < |nodes[q].children|
  {
    var a := nodes[l := Extended(nodes, q, p, l, r)];
    Rehang(a, r, 0, |nodes[r].children|, l, |nodes[l].values| + 1)[q := Reduced(nodes[q], p)]
  }

  /** The second loop of `merge`: the later children of the parent move up by one. */
  lemma MergeSecond(nodes: Nodes, info: Infos, home: Home, root: Id, q: Id, p: nat, l: Id, r: Id)
    requires Linked(nodes, info, home, root) && Siblings(nodes, info, q, p, l, r)
    ensures Kids(MergeHalfway(nodes, q, p, l, r), nodes[q].children[p + 2..], q, p + 2)
  {
    hide Linked, Kids, Without;
    ChildrenAreKids(nodes, info, home, root, q);
    var n := |nodes[q].children|;
    KidsSlice(nodes, nodes[q].children, q, p + 2, n);
    assert nodes[q].children[p + 2..n] == nodes[q].children[p + 2..];
    OwnParent(nodes, info, home, root, q, r);
    KidsSame(nodes, MergeHalfway(nodes, q, p, l, r), nodes[q].children[p + 2..], q, p + 2);
  }

  lemma OwnParent(nodes: Nodes, info: Infos, home: Home, root: Id, q: Id, r: Id)
    requires Linked(nodes, info, home, root) && q in nodes && r in nodes && nodes[r].parent == q
    ensures nodes[q].parent != r && nodes[q].parent != q
  {
    assert NodeOk(nodes, info, home, root, q) && NodeOk(nodes, info, home, root, r);
    assert r != root ==> ChildOk(nodes, info, q, nodes[r].position);
    assert q != root ==>
        NodeOk(nodes, info, home, root, nodes[q].parent) && ChildOk(nodes, info, nodes[q].parent, nodes[q].position);
  }

  /** Together the steps of `merge` give the merged nodes. */
  lemma MergeThird(nodes: Nodes, info: Infos, home: Home, root: Id, q: Id, p: nat, l: Id, r: Id)
    requires Linked(nodes, info, home, root) && Siblings(nodes, info, q, p, l, r)
    ensures Rehang(MergeHalfway(nodes, q, p, l, r), q, p + 2, |nodes[q].children|, q, -1) - {r} ==
              Merged(nodes, q, p, l, r)
  {
    hide Linked, Without, MergedNode;
    var m := Rehang(MergeHalfway(nodes, q, p, l, r), q, p + 2, |nodes[q].children|, q, -1) - {r};
    assert m.Keys == Merged(nodes, q, p, l, r).Keys;
    forall id | id in m ensures m[id] == MergedNode(nodes, q, p, l, r, id) {
      MergePoint(nodes, info, home, root, q, p, l, r, id);
    }
  }

  lemma MergePoint(nodes: Nodes, info: Infos, home: Home, root: Id, q: Id, p: nat, l: Id, r: Id, id: Id)
    requires Linked(nodes, info, home, root) && Siblings(nodes, info, q, p, l, r) && id in nodes && id != r
    ensures var m := Rehang(MergeHalfway(nodes, q, p, l, r), q, p + 2, |nodes[q].children|, q, -1);
            id in m && m[id] == MergedNode(nodes, q, p, l, r, id)
  {
    hide Linked, Kids, Without, Rehang;
    ChildrenAreKids(nodes, info, home, root, q);
    ChildrenAreKids(nodes, info, home, root, r);
    OwnParent(nodes, info, home, root, q, r);
    RehangAt(nodes[l := Extended(nodes, q, p, l, r)], r, 0, |nodes[r].children|, l, |nodes[l].values| + 1, id);
    RehangAt(MergeHalfway(nodes, q, p, l, r), q, p + 2, |nodes[q].children|, q, -1, id);
  }

  lemma RehangAt(a: Nodes, from: Id, lo: nat, hi: nat, x: Id, shift: int, id: Id)
    requires id in a
    ensures id in Rehang(a, from, lo, hi, x, shift)
    ensures Rehang(a, from, lo, hi, x, shift)[id] == Rehung(a[id], from, lo, hi, x, shift)
  {
  }

  // ----- the steps of `split` -----

  lemma SplitFirst(nodes: Nodes, info: Infos, home: Home, root: Id, q: Id, p: nat, l: Id, k: nat, r: Id)
    requires Linked(nodes, info, home, root) && CanSplit(nodes, info, q, p, l, k, r)
    ensures Kids(nodes[l := LeftPart(nodes[l], k)], nodes[q].children[p + 1..], q, p + 1)
  {
    hide Linked, Kids;
    ChildrenAreKids(nodes, info, home, root, q);
    var n := |nodes[q].children|;
    KidsSlice(nodes, nodes[q].children, q, p + 1, n);
    assert nodes[q].children[p + 1..n] == nodes[q].children[p + 1..];
    KidsSame(nodes, nodes[l := LeftPart(nodes[l], k)], nodes[q].children[p + 1..], q, p + 1);
  }

  function Increased(nodes: Nodes, q: Id, p: nat, l: Id, k: nat, r: Id): (n: Node)
    requires q in nodes && l in nodes && p <= |nodes[q].values| && p < |nodes[q].children| && k < |nodes[l].values|
  {
    nodes[q].(values := With(nodes[q].values, p, nodes[l].values[k]), children := With(nodes[q].children, p + 1, r))
  }

  ghost function SplitHalfway(nodes: Nodes, q: Id, p: nat, l: Id, k: nat, r: Id, mc: nat): (m: Nodes)
    requires q in nodes && l in nodes && p <= |nodes[q].values| && p < |nodes[q].children|
    requires k < |nodes[l].values| && (nodes[l].leaf || k < |nodes[l].children|)
  {
    Rehang(nodes[l := LeftPart(nodes[l], k)], q, p + 1, |nodes[q].children|, q, 1)
      [q := Increased(nodes, q, p, l, k, r)][r := RightPart(nodes[l], k, mc)]
  }

  lemma SplitSecond(nodes: Nodes, info: Infos, home: Home, root: Id, q: Id, p: nat, l: Id, k: nat, r: Id, mc: nat)
    requires Linked(nodes, info, home, root) && CanSplit(nodes, info, q, p, l, k, r) && !nodes[l].leaf
    ensures Kids(SplitHalfway(nodes, q, p, l, k, r, mc), nodes[l].children[k + 1..], l, k + 1)
  {
    hide Linked, With;
    ChildrenAreKids(nodes, info, home, root, l);
    var n := |nodes[l].children|;
    KidsSlice(nodes, nodes[l].children, l, k + 1, n);
    assert nodes[l].children[k + 1..n] == nodes[l].children[k + 1..];
    OwnParent(nodes, info, home, root, q, l);
  }

  lemma SplitThird(nodes: Nodes, info: Infos, home: Home, root: Id, q: Id, p: nat, l: Id, k: nat, r: Id, mc: nat)
    requires Linked(nodes, info, home, root) && CanSplit(nodes, info, q, p, l, k, r) && l != root
    ensures var h := SplitHalfway(nodes, q, p, l, k, r, mc);
            (if nodes[l].leaf then h else Rehang(h, l, k + 1, |nodes[l].children|, r, -(k + 1))) ==
                Split(nodes, q, p, l, k, r, mc)
  {
    hide Linked, With, SplitNode;
    var h := SplitHalfway(nodes, q, p, l, k, r, mc);
    var m := if nodes[l].leaf then h else Rehang(h, l, k + 1, |nodes[l].children|, r, -(k + 1));
    assert m.Keys == nodes.Keys + {r};
    forall id | id in m ensures m[id] == SplitNode(nodes, q, p, l, k, r, mc, id) {
      SplitPoint(nodes, info, home, root, q, p, l, k, r, mc, id);
    }
  }

  lemma SplitPoint(nodes: Nodes, info: Infos, home: Home, root: Id, q: Id, p: nat, l: Id, k: nat, r: Id, mc: nat,
      id: Id)
    requires Linked(nodes, info, home, root) && CanSplit(nodes, info, q, p, l, k, r) && (id in nodes || id == r)
    ensures var h := SplitHalfway(nodes, q, p, l, k, r, mc);
            var m := if nodes[l].leaf then h else Rehang(h, l, k + 1, |nodes[l].children|, r, -(k + 1));
            id in m && m[id] == SplitNode(nodes, q, p, l, k, r, mc, id)
  {
    hide Linked, Kids, With, Rehang;
    ChildrenAreKids(nodes, info, home, root, q);
    ChildrenAreKids(nodes, info, home, root, l);
    OwnParent(nodes, info, home, root, q, l);
    LeafHasNoChildren(nodes, info, home, root, l);
    var a, h := nodes[l := LeftPart(nodes[l], k)], SplitHalfway(nodes, q, p, l, k, r, mc);
    if id in a { RehangAt(a, q, p + 1, |nodes[q].children|, q, 1, id); }
    RehangAt(h, l, k + 1, |nodes[l].children|, r, -(k + 1), id);
  }

  lemma LeafHasNoChildren(nodes: Nodes, info: Infos, home: Home, root: Id, id: Id)
    requires Linked(nodes, info, home, root) && id in nodes
    ensures nodes[id].leaf ==> forall c | c in nodes :: nodes[c].parent != id
  {
    assert NodeOk(nodes, info, home, root, id);
    forall c | c in nodes && nodes[c].parent == id ensures !nodes[id].leaf {
      assert NodeOk(nodes, info, home, root, c);
      assert c != root;
    }
  }

  // ----- the steps of `rebalance_right_to_left` -----

  lemma SlicesRight<T>(a: seq<T>, d: T, b: seq<T>, t: nat)
    requires 1 <= t <= |b|
    ensures var c := a + [d] + b; var k := |a| + t;
            c[..k] == a + [d] + b[..t - 1] && c[k] == b[t - 1] && c[k + 1..] == b[t..]
  {
  }

  lemma SlicesLeft<T>(a: seq<T>, d: T, b: seq<T>, t: nat)
    requires 1 <= t <= |a|
    ensures var c := a + [d] + b; var k := |a| - t;
            c[..k] == a[..k] && c[k] == a[k] && c[k + 1..] == a[k + 1..] + [d] + b
  {
  }

  lemma ChildSlices<T>(a: seq<T>, b: seq<T>, n: nat)
    ensures n <= |b| ==> (a + b)[..|a| + n] == a + b[..n] && (a + b)[|a| + n..] == b[n..]
    ensures n <= |a| ==> (a + b)[..n] == a[..n] && (a + b)[n..] == a[n..] + b
  {
  }

  /** The three nodes once `t` keys have moved from `r` to `l`. */
  ghost function RightStart(nodes: Nodes, q: Id, p: nat, l: Id, r: Id, t: nat): (m: Nodes)
    requires q in nodes && l in nodes && r in nodes && p < |nodes[q].values|
    requires 1 <= t <= |nodes[r].values| && (nodes[r].leaf || t <= |nodes[r].children|)
  {
    var L, R, Q := nodes[l], nodes[r], nodes[q];
    nodes[l := L.(values := L.values + [Q.values[p]] + R.values[..t - 1],
        children := if R.leaf then [] else L.children + R.children[..t])]
         [q := Q.(values := Q.values[p := R.values[t - 1]])]
         [r := R.(values := R.values[t..], children := if R.leaf then [] else R.children[t..])]
  }

  lemma RightPlaces(nodes: Nodes, q: Id, p: nat, l: Id, r: Id, t: nat)
    requires q in nodes && l in nodes && r in nodes && p < |nodes[q].values| && l != r && l != q && r != q
    requires 1 <= t <= |nodes[r].values| && (nodes[r].leaf || t <= |nodes[r].children|)
    ensures SamePlaces(nodes, RightStart(nodes, q, p, l, r, t))
  {
  }

  /** Nobody has moved. */
  ghost predicate SamePlaces(nodes: Nodes, a: Nodes) {
    a.Keys == nodes.Keys && forall id | id in nodes ::
        a[id].parent == nodes[id].parent && a[id].position == nodes[id].position
  }

  lemma RehangOthers(a: Nodes, from: Id, lo: nat, hi: nat, x: Id, shift: int, id: Id)
    requires id in a
    ensures id in Rehang(a, from, lo, hi, x, shift)
    ensures (a[id].parent != from ==> Rehang(a, from, lo, hi, x, shift)[id] == a[id])
  {
  }

  ghost predicate CanShift(nodes: Nodes, info: Infos, home: Home, root: Id, q: Id, p: nat, l: Id, r: Id) {
    && Linked(nodes, info, home, root) && Siblings(nodes, info, q, p, l, r)
    && (nodes[l].leaf || (|nodes[l].children| == |nodes[l].values| + 1 && |nodes[r].children| == |nodes[r].values| + 1))
  }

  lemma ShiftReady(nodes: Nodes, info: Infos, home: Home, root: Id, q: Id, p: nat, l: Id, r: Id)
    requires Linked(nodes, info, home, root) && Neighbours(nodes, q, p, l, r)
    ensures CanShift(nodes, info, home, root, q, p, l, r) && l != root && r != root
  {
    NeighbourFacts(nodes, info, home, root, q, p, l, r);
    ChildCount(nodes, info, home, root, l);
    ChildCount(nodes, info, home, root, r);
  }

  lemma RightKids(nodes: Nodes, info: Infos, home: Home, root: Id, q: Id, p: nat, l: Id, r: Id, t: nat)
    requires CanShift(nodes, info, home, root, q, p, l, r) && !nodes[r].leaf && 1 <= t <= |nodes[r].values|
    ensures var a := RightStart(nodes, q, p, l, r, t); var R := nodes[r];
            && Kids(a, R.children[..t], r, 0)
            && Kids(Rehang(a, r, 0, t, l, |nodes[l].values| + 1), R.children[t..], r, t)
  {
    hide Linked, Kids, RightStart, Rehang;
    RightPlaces(nodes, q, p, l, r, t);
    var a, R := RightStart(nodes, q, p, l, r, t), nodes[r];
    var n := |R.children|;
    ChildrenAreKids(nodes, info, home, root, r);
    KidsSlice(nodes, R.children, r, 0, t);
    KidsSlice(nodes, R.children, r, t, n);
    assert R.children[0..t] == R.children[..t] && R.children[t..n] == R.children[t..];
    OwnParent(nodes, info, home, root, q, r);
    KidsSame(nodes, a, R.children[..t], r, 0);
    KidsAfter(nodes, a, R.children[t..], r, t, l, |nodes[l].values| + 1);
  }

  lemma KidsAfter(nodes: Nodes, a: Nodes, kids: seq<Id>, from: Id, lo: nat, x: Id, shift: int)
    requires Kids(nodes, kids, from, lo) && SamePlaces(nodes, a) && x != from
    ensures Kids(Rehang(a, from, 0, lo, x, shift), kids, from, lo)
  {
  }

  ghost function RightEnd(nodes: Nodes, q: Id, p: nat, l: Id, r: Id, t: nat): (m: Nodes)
    requires q in nodes && l in nodes && r in nodes && p < |nodes[q].values|
    requires 1 <= t <= |nodes[r].values| && (nodes[r].leaf || t <= |nodes[r].children|)
  {
    var a := RightStart(nodes, q, p, l, r, t);
    if nodes[r].leaf then a
    else Rehang(Rehang(a, r, 0, t, l, |nodes[l].values| + 1), r, t, |nodes[r].children|, r, 0 - t)
  }

  lemma RightMoves(nodes: Nodes, info: Infos, home: Home, root: Id, q: Id, p: nat, l: Id, r: Id, t: nat)
    requires CanShift(nodes, info, home, root, q, p, l, r) && 1 <= t <= |nodes[r].values|
    ensures CanMove(nodes, info, q, p, l, r, |nodes[l].values| + t)
    ensures RightEnd(nodes, q, p, l, r, t) == Rebalanced(nodes, q, p, l, r, |nodes[l].values| + t)
  {
    hide Kids, Rebalanced, NodeOk, Linked, RightEnd, MovedNode;
    var k := |nodes[l].values| + t;
    ShiftMove(nodes, info, home, root, q, p, l, r, k);
    var m, m' := RightEnd(nodes, q, p, l, r, t), Rebalanced(nodes, q, p, l, r, k);
    MoveNode(nodes, info, home, root, q, p, l, r, k, l);
    RightDomain(nodes, q, p, l, r, t);
    forall id | id in nodes ensures m[id] == m'[id] {
      RightNode(nodes, info, home, root, q, p, l, r, t, id);
      MoveNode(nodes, info, home, root, q, p, l, r, k, id);
    }
  }

  lemma ShiftMove(nodes: Nodes, info: Infos, home: Home, root: Id, q: Id, p: nat, l: Id, r: Id, k: nat)
    requires CanShift(nodes, info, home, root, q, p, l, r) && k < |nodes[l].values| + 1 + |nodes[r].values|
    ensures CanMove(nodes, info, q, p, l, r, k)
  {
  }

  lemma RightDomain(nodes: Nodes, q: Id, p: nat, l: Id, r: Id, t: nat)
    requires q in nodes && l in nodes && r in nodes && p < |nodes[q].values|
    requires 1 <= t <= |nodes[r].values| && (nodes[r].leaf || t <= |nodes[r].children|)
    ensures RightEnd(nodes, q, p, l, r, t).Keys == nodes.Keys
  {
  }

  lemma RightNode(nodes: Nodes, info: Infos, home: Home, root: Id, q: Id, p: nat, l: Id, r: Id, t: nat, id: Id)
    requires CanShift(nodes, info, home, root, q, p, l, r) && 1 <= t <= |nodes[r].values| && id in nodes
    ensures RightEnd(nodes, q, p, l, r, t)[id] == MovedNode(nodes, q, p, l, r, |nodes[l].values| + t, id)
  {
    hide Linked, MovedNode, RightEnd;
    if id == l || id == r || id == q {
      RightThree(nodes, info, home, root, q, p, l, r, t, id);
    } else {
      RightOther(nodes, info, home, root, q, p, l, r, t, id);
    }
  }

  lemma RightThree(nodes: Nodes, info: Infos, home: Home, root: Id, q: Id, p: nat, l: Id, r: Id, t: nat, id: Id)
    requires CanShift(nodes, info, home, root, q, p, l, r)
    requires 1 <= t <= |nodes[r].values| && (id == l || id == r || id == q)
    ensures RightEnd(nodes, q, p, l, r, t)[id] == MovedNode(nodes, q, p, l, r, |nodes[l].values| + t, id)
  {
    hide Kids, Linked, Rehang;
    OwnParent(nodes, info, home, root, q, r);
    OwnParent(nodes, info, home, root, q, l);
    RightPlaces(nodes, q, p, l, r, t);
    var a, n := RightStart(nodes, q, p, l, r, t), |nodes[l].values| + 1;
    RehangOthers(a, r, 0, t, l, n, id);
    RehangOthers(Rehang(a, r, 0, t, l, n), r, t, |nodes[r].children|, r, 0 - t, id);
    hide RightStart, MovedNode;
    RightContents(nodes, q, p, l, r, t, id);
  }

  lemma RightContents(nodes: Nodes, q: Id, p: nat, l: Id, r: Id, t: nat, id: Id)
    requires q in nodes && l in nodes && r in nodes && l != r && l != q
    requires r != q && p < |nodes[q].values| && (id == l || id == r || id == q)
    requires 1 <= t <= |nodes[r].values| && nodes[l].leaf == nodes[r].leaf
    requires nodes[l].leaf || (|nodes[l].children| == |nodes[l].values| + 1 &&
              |nodes[r].children| == |nodes[r].values| + 1)
    ensures RightStart(nodes, q, p, l, r, t)[id] == MovedNode(nodes, q, p, l, r, |nodes[l].values| + t, id)
  {
    SlicesRight(nodes[l].values, nodes[q].values[p], nodes[r].values, t);
    ChildSlices(nodes[l].children, nodes[r].children, t);
  }

  lemma RightOther(nodes: Nodes, info: Infos, home: Home, root: Id, q: Id, p: nat, l: Id, r: Id, t: nat, id: Id)
    requires CanShift(nodes, info, home, root, q, p, l, r) && 1 <= t <= |nodes[r].values| && id in nodes && id != l
    requires id != r && id != q
    ensures RightEnd(nodes, q, p, l, r, t)[id] == MovedNode(nodes, q, p, l, r, |nodes[l].values| + t, id)
  {
    hide Kids, Linked;
    ChildrenAreKids(nodes, info, home, root, r);
    ChildrenAreKids(nodes, info, home, root, l);
    LeafHasNoChildren(nodes, info, home, root, r);
    LeafHasNoChildren(nodes, info, home, root, l);
  }

  // ----- the steps of `rebalance_left_to_right` -----

  /** The three nodes once `t` keys have moved from `l` to `r`. */
  ghost function LeftStart(nodes: Nodes, q: Id, p: nat, l: Id, r: Id, t: nat): (m: Nodes)
    requires q in nodes && l in nodes && r in nodes && p < |nodes[q].values|
    requires 1 <= t <= |nodes[l].values| && (nodes[l].leaf || |nodes[l].children| == |nodes[l].values| + 1)
  {
    var L, R, Q, k := nodes[l], nodes[r], nodes[q], |nodes[l].values| - t;
    nodes[r := R.(values := L.values[k + 1..] + [Q.values[p]] + R.values,
        children := if L.leaf then [] else L.children[k + 1..] + R.children)]
         [q := Q.(values := Q.values[p := L.values[k]])]
         [l := L.(values := L.values[..k], children := if L.leaf then [] else L.children[..k + 1])]
  }

  lemma LeftPlaces(nodes: Nodes, q: Id, p: nat, l: Id, r: Id, t: nat)
    requires q in nodes && l in nodes && r in nodes && p < |nodes[q].values| && l != r && l != q && r != q
    requires 1 <= t <= |nodes[l].values| && (nodes[l].leaf || |nodes[l].children| == |nodes[l].values| + 1)
    ensures SamePlaces(nodes, LeftStart(nodes, q, p, l, r, t))
  {
  }

  /** Renumbering the children of another parent changes nothing for these. */
  lemma KidsElsewhere(nodes: Nodes, a: Nodes, kids: seq<Id>, from: Id, lo: nat, r: Id, hi: nat, shift: int)
    requires Kids(nodes, kids, from, lo) && SamePlaces(nodes, a) && r != from
    ensures Kids(Rehang(a, r, 0, hi, r, shift), kids, from, lo)
  {
  }

  lemma LeftKids(nodes: Nodes, info: Infos, home: Home, root: Id, q: Id, p: nat, l: Id, r: Id, t: nat)
    requires CanShift(nodes, info, home, root, q, p, l, r) && !nodes[l].leaf && 1 <= t <= |nodes[l].values|
    ensures var a := LeftStart(nodes, q, p, l, r, t); var k := |nodes[l].values| - t;
            && Kids(a, nodes[r].children, r, 0)
            && Kids(Rehang(a, r, 0, |nodes[r].children|, r, t), nodes[l].children[k + 1..], l, k + 1)
  {
    hide Linked, Kids, LeftStart, Rehang;
    LeftPlaces(nodes, q, p, l, r, t);
    var a, k, n := LeftStart(nodes, q, p, l, r, t), |nodes[l].values| - t, |nodes[l].children|;
    ChildrenAreKids(nodes, info, home, root, r);
    ChildrenAreKids(nodes, info, home, root, l);
    KidsSlice(nodes, nodes[l].children, l, k + 1, n);
    assert nodes[l].children[k + 1..n] == nodes[l].children[k + 1..];
    KidsSame(nodes, a, nodes[r].children, r, 0);
    KidsElsewhere(nodes, a, nodes[l].children[k + 1..], l, k + 1, r, |nodes[r].children|, t);
  }

  ghost function LeftEnd(nodes: Nodes, q: Id, p: nat, l: Id, r: Id, t: nat): (m: Nodes)
    requires q in nodes && l in nodes && r in nodes && p < |nodes[q].values|
    requires 1 <= t <= |nodes[l].values| && (nodes[l].leaf || |nodes[l].children| == |nodes[l].values| + 1)
  {
    var a, k := LeftStart(nodes, q, p, l, r, t), |nodes[l].values| - t;
    if nodes[l].leaf then a
    else Rehang(Rehang(a, r, 0, |nodes[r].children|, r, t), l, k + 1, |nodes[l].children|, r, -(k + 1))
  }

  lemma LeftMoves(nodes: Nodes, info: Infos, home: Home, root: Id, q: Id, p: nat, l: Id, r: Id, t: nat)
    requires CanShift(nodes, info, home, root, q, p, l, r) && 1 <= t <= |nodes[l].values|
    ensures CanMove(nodes, info, q, p, l, r, |nodes[l].values| - t)
    ensures LeftEnd(nodes, q, p, l, r, t) == Rebalanced(nodes, q, p, l, r, |nodes[l].values| - t)
  {
    hide Kids, Rebalanced, NodeOk, Linked, LeftEnd, MovedNode;
    var k := |nodes[l].values| - t;
    ShiftMove(nodes, info, home, root, q, p, l, r, k);
    var m, m' := LeftEnd(nodes, q, p, l, r, t), Rebalanced(nodes, q, p, l, r, k);
    MoveNode(nodes, info, home, root, q, p, l, r, k, l);
    LeftDomain(nodes, q, p, l, r, t);
    forall id | id in nodes ensures m[id] == m'[id] {
      LeftNode(nodes, info, home, root, q, p, l, r, t, id);
      MoveNode(nodes, info, home, root, q, p, l, r, k, id);
    }
  }

  lemma LeftDomain(nodes: Nodes, q: Id, p: nat, l: Id, r: Id, t: nat)
    requires q in nodes && l in nodes && r in nodes && p < |nodes[q].values|
    requires 1 <= t <= |nodes[l].values| && (nodes[l].leaf || |nodes[l].children| == |nodes[l].values| + 1)
    ensures LeftEnd(nodes, q, p, l, r, t).Keys == nodes.Keys
  {
  }

  lemma LeftNode(nodes: Nodes, info: Infos, home: Home, root: Id, q: Id, p: nat, l: Id, r: Id, t: nat, id: Id)
    requires CanShift(nodes, info, home, root, q, p, l, r) && 1 <= t <= |nodes[l].values| && id in nodes
    ensures LeftEnd(nodes, q, p, l, r, t)[id] == MovedNode(nodes, q, p, l, r, |nodes[l].values| - t, id)
  {
    hide Linked, MovedNode, LeftEnd;
    if id == l || id == r || id == q {
      LeftThree(nodes, info, home, root, q, p, l, r, t, id);
    } else {
      LeftOther(nodes, info, home, root, q, p, l, r, t, id);
    }
  }

  lemma LeftThree(nodes: Nodes, info: Infos, home: Home, root: Id, q: Id, p: nat, l: Id, r: Id, t: nat, id: Id)
    requires CanShift(nodes, info, home, root, q, p, l, r)
    requires 1 <= t <= |nodes[l].values| && (id == l || id == r || id == q)
    ensures LeftEnd(nodes, q, p, l, r, t)[id] == MovedNode(nodes, q, p, l, r, |nodes[l].values| - t, id)
  {
    hide Kids, Linked, Rehang;
    OwnParent(nodes, info, home, root, q, r);
    OwnParent(nodes, info, home, root, q, l);
    LeftPlaces(nodes, q, p, l, r, t);
    var a, n := LeftStart(nodes, q, p, l, r, t), |nodes[l].values| - t + 1;
    RehangOthers(a, r, 0, |nodes[r].children|, r, t, id);
    RehangOthers(Rehang(a, r, 0, |nodes[r].children|, r, t), l, n, |nodes[l].children|, r, -n, id);
    hide LeftStart, MovedNode;
    LeftContents(nodes, q, p, l, r, t, id);
  }

  lemma LeftContents(nodes: Nodes, q: Id, p: nat, l: Id, r: Id, t: nat, id: Id)
    requires q in nodes && l in nodes && r in nodes && l != r && l != q
    requires r != q && p < |nodes[q].values| && (id == l || id == r || id == q)
    requires 1 <= t <= |nodes[l].values| && nodes[l].leaf == nodes[r].leaf
    requires (nodes[l].leaf || |nodes[l].children| == |nodes[l].values| + 1)
    ensures LeftStart(nodes, q, p, l, r, t)[id] == MovedNode(nodes, q, p, l, r, |nodes[l].values| - t, id)
  {
    SlicesLeft(nodes[l].values, nodes[q].values[p], nodes[r].values, t);
    ChildSlices(nodes[l].children, nodes[r].children, |nodes[l].values| - t + 1);
  }

  lemma LeftOther(nodes: Nodes, info: Infos, home: Home, root: Id, q: Id, p: nat, l: Id, r: Id, t: nat, id: Id)
    requires CanShift(nodes, info, home, root, q, p, l, r) && 1 <= t <= |nodes[l].values| && id in nodes && id != l
    requires id != r && id != q
    ensures LeftEnd(nodes, q, p, l, r, t)[id] == MovedNode(nodes, q, p, l, r, |nodes[l].values| - t, id)
  {
    hide Kids, Linked;
    ChildrenAreKids(nodes, info, home, root, r);
    ChildrenAreKids(nodes, info, home, root, l);
    LeafHasNoChildren(nodes, info, home, root, r);
    LeafHasNoChildren(nodes, info, home, root, l);
  }
}
