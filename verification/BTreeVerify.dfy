/** The tree's own test as a predicate on any arena without cycles, and what exactly it accepts. */
module BTreeVerify {
  import opened Hashing
  import opened BTreeShape
  import opened BTreeSplit
  import opened BTreeRoot
  import opened BTreeOrder
  import opened BTreeLeaf
  import opened BTreeMoves
  import opened BTreeFacts

  type Ranks = map<Id, nat>

  /** Ranks fall from every node to its children: there is no cycle. */
  ghost predicate Acyclic(nodes: Nodes, rank: Ranks) {
    && nodes.Keys <= rank.Keys
    && forall id, i | id in nodes && 0 <= i < |nodes[id].children| && nodes[id].children[i] in nodes ::
         rank[nodes[id].children[i]] < rank[id]
  }

  /** What the test asks of one node but for its keys: its size, and that its children point back. */
  predicate NodeLinked(nodes: Nodes, id: Id) {
    && id in nodes && 0 < |nodes[id].values| <= nodes[id].maxCount
    && (nodes[id].leaf || |nodes[id].children| == |nodes[id].values| + 1)
    && (nodes[id].leaf || forall i | 0 <= i < |nodes[id].children| :: ChildLinked(nodes, id, i))
  }

  predicate ChildLinked(nodes: Nodes, id: Id, i: nat)
    requires id in nodes && i < |nodes[id].children|
  {
    var c := nodes[id].children[i];
    c in nodes && nodes[c].parent == id && nodes[c].position == i
  }

  predicate NonDecreasing(s: seq<int>) {
    forall i, j | 0 <= i < j < |s| :: s[i] <= s[j]
  }

  predicate Between(lo: int, s: seq<int>, hi: int) {
    lo <= hi && NonDecreasing(s) && forall i | 0 <= i < |s| :: lo <= s[i] <= hi
  }

  /** The test, node by node, with the bounds it passes down. */
  ghost predicate Accepted(nodes: Nodes, rank: Ranks, id: Id, lo: int, hi: int)
    requires Acyclic(nodes, rank) && id in nodes
    decreases rank[id]
  {
    var n := nodes[id];
    && NodeLinked(nodes, id)
    && lo <= n.values[0] && n.values[|n.values| - 1] <= hi && NonDecreasing(n.values)
    && (n.leaf || forall i | 0 <= i < |n.children| ::
         ChildLinked(nodes, id, i)
         && Accepted(nodes, rank, n.children[i], LeftOf(n.values, i, lo), RightOf(n.values, i, hi)))
  }

  // ----- the whole tree below a node -----

  ghost predicate TreeLinked(nodes: Nodes, rank: Ranks, id: Id)
    requires Acyclic(nodes, rank) && id in nodes
    decreases rank[id]
  {
    && NodeLinked(nodes, id)
    && (nodes[id].leaf || forall i | 0 <= i < |nodes[id].children| ::
         ChildLinked(nodes, id, i) && TreeLinked(nodes, rank, nodes[id].children[i]))
  }

  /** The values of the tree below a node, from left to right. */
  ghost function Listing(nodes: Nodes, rank: Ranks, id: Id): (s: seq<int>)
    requires Acyclic(nodes, rank) && id in nodes && TreeLinked(nodes, rank, id)
    decreases rank[id], |nodes[id].values| + 1
  {
    if nodes[id].leaf then nodes[id].values else ListingTo(nodes, rank, id, |nodes[id].values|)
  }

  /** Those of children 0 to `i` and the node's own values between them. */
  ghost function ListingTo(nodes: Nodes, rank: Ranks, id: Id, i: nat): (s: seq<int>)
    requires Acyclic(nodes, rank) && id in nodes && TreeLinked(nodes, rank, id)
    requires !nodes[id].leaf && i <= |nodes[id].values|
    decreases rank[id], i
  {
    assert ChildLinked(nodes, id, i);
    var last := Listing(nodes, rank, nodes[id].children[i]);
    if i == 0 then last else ListingTo(nodes, rank, id, i - 1) + [nodes[id].values[i - 1]] + last
  }

  lemma SplitBetween(lo: int, a: seq<int>, d: int, b: seq<int>, hi: int)
    ensures Between(lo, a + [d] + b, hi) <==> Between(lo, a, d) && Between(d, b, hi)
  {
    hide Between;
    if Between(lo, a + [d] + b, hi) { PartsBetween(lo, a, d, b, hi); }
    if Between(lo, a, d) && Between(d, b, hi) { WholeBetween(lo, a, d, b, hi); }
  }

  lemma PartsBetween(lo: int, a: seq<int>, d: int, b: seq<int>, hi: int)
    requires Between(lo, a + [d] + b, hi)
    ensures Between(lo, a, d) && Between(d, b, hi)
  {
    var s, m := a + [d] + b, |a| + 1;
    assert s[|a|] == d;
    forall i, j | 0 <= i < j < |a| ensures a[i] <= a[j] { assert s[i] <= s[j]; }
    forall i | 0 <= i < |a| ensures lo <= a[i] <= d { assert lo <= s[i] <= s[|a|]; }
    forall i, j | 0 <= i < j < |b| ensures b[i] <= b[j] { assert s[m + i] <= s[m + j]; }
    forall i | 0 <= i < |b| ensures d <= b[i] <= hi { assert s[|a|] <= s[m + i] <= hi; }
  }

  lemma WholeBetween(lo: int, a: seq<int>, d: int, b: seq<int>, hi: int)
    requires Between(lo, a, d) && Between(d, b, hi)
    ensures Between(lo, a + [d] + b, hi)
  {
    var s := a + [d] + b;
    assert forall i | 0 <= i < |s| :: s[i] == if i < |a| then a[i] else if i == |a| then d else b[i - |a| - 1];
    forall i | 0 <= i < |s|
      ensures lo <= s[i] <= hi && (i <= |a| ==> s[i] <= d) && (i >= |a| ==> d <= s[i])
    {
    }
    forall i, j | 0 <= i < j < |s| ensures s[i] <= s[j] { }
  }

  /** The listing of a child between its bounds. */
  ghost predicate ChildBetween(nodes: Nodes, rank: Ranks, id: Id, i: nat, lo: int, hi: int)
    requires Acyclic(nodes, rank) && id in nodes && TreeLinked(nodes, rank, id) && !nodes[id].leaf
    requires i <= |nodes[id].values|
  {
    assert ChildLinked(nodes, id, i);
    var v := nodes[id].values;
    Between(LeftOf(v, i, lo), Listing(nodes, rank, nodes[id].children[i]), RightOf(v, i, hi))
  }

  /** A prefix of the listing is in order exactly if each of its children is, between the values around it. */
  lemma {:induction false} ListingSplits(nodes: Nodes, rank: Ranks, id: Id, i: nat, lo: int, hi: int)
    requires Acyclic(nodes, rank) && id in nodes && TreeLinked(nodes, rank, id)
    requires !nodes[id].leaf && i <= |nodes[id].values|
    ensures Between(lo, ListingTo(nodes, rank, id, i), RightOf(nodes[id].values, i, hi))
      <==> forall j: nat | j <= i :: ChildBetween(nodes, rank, id, j, lo, hi)
    decreases i
  {
    hide Between, TreeLinked, Acyclic;
    var v := nodes[id].values;
    assert ChildLinkedAt(nodes, rank, id, i) by { ChildIsLinked(nodes, rank, id, i); }
    if i > 0 {
      ListingSplits(nodes, rank, id, i - 1, lo, hi);
      SplitBetween(lo, ListingTo(nodes, rank, id, i - 1), v[i - 1], Listing(nodes, rank, nodes[id].children[i]),
        RightOf(v, i, hi));
      assert (forall j: nat | j <= i :: ChildBetween(nodes, rank, id, j, lo, hi))
        <==> ChildBetween(nodes, rank, id, i, lo, hi)
             && forall j: nat | j <= i - 1 :: ChildBetween(nodes, rank, id, j, lo, hi);
    } else {
      assert (forall j: nat | j <= i :: ChildBetween(nodes, rank, id, j, lo, hi))
        <==> ChildBetween(nodes, rank, id, 0, lo, hi);
    }
  }

  ghost predicate ChildLinkedAt(nodes: Nodes, rank: Ranks, id: Id, i: nat)
    requires Acyclic(nodes, rank) && id in nodes
  {
    && i < |nodes[id].children| && nodes[id].children[i] in nodes
    && TreeLinked(nodes, rank, nodes[id].children[i])
  }

  lemma ChildIsLinked(nodes: Nodes, rank: Ranks, id: Id, i: nat)
    requires Acyclic(nodes, rank) && id in nodes && TreeLinked(nodes, rank, id)
    requires !nodes[id].leaf && i <= |nodes[id].values|
    ensures ChildLinkedAt(nodes, rank, id, i)
  {
    assert ChildLinked(nodes, id, i);
  }

  /** When the children are in order between a node's values, so are the values. */
  lemma {:induction false} ValuesBetween(nodes: Nodes, rank: Ranks, id: Id, lo: int, hi: int)
    requires Acyclic(nodes, rank) && id in nodes && TreeLinked(nodes, rank, id) && !nodes[id].leaf
    requires forall j: nat | j <= |nodes[id].values| :: ChildBetween(nodes, rank, id, j, lo, hi)
    ensures Between(lo, nodes[id].values, hi)
  {
    var v := nodes[id].values;
    forall j: nat | j <= |v| ensures LeftOf(v, j, lo) <= RightOf(v, j, hi) {
      assert ChildBetween(nodes, rank, id, j, lo, hi);
    }
    StepsBetween(lo, v, hi);
  }

  lemma StepsBetween(lo: int, v: seq<int>, hi: int)
    requires forall j: nat | j <= |v| :: LeftOf(v, j, lo) <= RightOf(v, j, hi)
    ensures Between(lo, v, hi)
  {
    assert LeftOf(v, 0, lo) <= RightOf(v, 0, hi) && LeftOf(v, |v|, lo) <= RightOf(v, |v|, hi);
    forall i, j | 0 <= i < j < |v| ensures v[i] <= v[j] { Climb(lo, v, hi, i, j); }
    forall i | 0 <= i < |v| ensures lo <= v[i] <= hi {
      if i > 0 { Climb(lo, v, hi, 0, i); }
      if i < |v| - 1 { Climb(lo, v, hi, i, |v| - 1); }
    }
  }

  lemma {:induction false} Climb(lo: int, v: seq<int>, hi: int, i: nat, j: nat)
    requires forall k: nat | k <= |v| :: LeftOf(v, k, lo) <= RightOf(v, k, hi)
    requires i < j < |v|
    ensures v[i] <= v[j]
    decreases j
  {
    assert LeftOf(v, j, lo) <= RightOf(v, j, hi);
    if i < j - 1 { Climb(lo, v, hi, i, j - 1); }
  }

  /** The test accepts exactly the trees whose nodes are linked and have a right size, and whose listing is
      non-decreasing between the bounds: equal neighbours pass, and leaves may differ in depth. */
  lemma {:induction false} AcceptsExactly(nodes: Nodes, rank: Ranks, id: Id, lo: int, hi: int)
    requires Acyclic(nodes, rank) && id in nodes
    ensures Accepted(nodes, rank, id, lo, hi)
      <==> TreeLinked(nodes, rank, id) && Between(lo, Listing(nodes, rank, id), hi)
    decreases rank[id]
  {
    var n := nodes[id];
    if NodeLinked(nodes, id) && !n.leaf {
      forall i: nat | i < |n.children| ensures ChildAccepted(nodes, rank, id, i, lo, hi) <==>
        ChildLinkedAt(nodes, rank, id, i)
        && Between(LeftOf(n.values, i, lo), Listing(nodes, rank, n.children[i]), RightOf(n.values, i, hi))
      {
        assert ChildLinked(nodes, id, i);
        AcceptsExactly(nodes, rank, n.children[i], LeftOf(n.values, i, lo), RightOf(n.values, i, hi));
      }
      InnerNode(nodes, rank, id, lo, hi);
    } else if NodeLinked(nodes, id) {
      LeafBetween(lo, n.values, hi);
    }
  }

  lemma LeafBetween(lo: int, v: seq<int>, hi: int)
    requires |v| > 0
    ensures Between(lo, v, hi) <==> lo <= v[0] && v[|v| - 1] <= hi && NonDecreasing(v)
  {
  }

  ghost predicate ChildAccepted(nodes: Nodes, rank: Ranks, id: Id, i: nat, lo: int, hi: int)
    requires Acyclic(nodes, rank) && id in nodes && i <= |nodes[id].values| && i < |nodes[id].children|
  {
    var v := nodes[id].values;
    ChildLinked(nodes, id, i) && Accepted(nodes, rank, nodes[id].children[i], LeftOf(v, i, lo), RightOf(v, i, hi))
  }

  lemma InnerNode(nodes: Nodes, rank: Ranks, id: Id, lo: int, hi: int)
    requires Acyclic(nodes, rank) && NodeLinked(nodes, id) && !nodes[id].leaf
    requires forall i: nat | i < |nodes[id].children| :: ChildAccepted(nodes, rank, id, i, lo, hi) <==>
      ChildLinkedAt(nodes, rank, id, i)
      && Between(LeftOf(nodes[id].values, i, lo), Listing(nodes, rank, nodes[id].children[i]),
                 RightOf(nodes[id].values, i, hi))
    ensures Accepted(nodes, rank, id, lo, hi)
      <==> TreeLinked(nodes, rank, id) && Between(lo, Listing(nodes, rank, id), hi)
  {
    hide Between, Acyclic;
    var n := nodes[id];
    if Accepted(nodes, rank, id, lo, hi) {
      forall i: nat | i < |n.children| ensures ChildLinkedAt(nodes, rank, id, i) {
        assert ChildAccepted(nodes, rank, id, i, lo, hi);
      }
      assert TreeLinked(nodes, rank, id);
    }
    if TreeLinked(nodes, rank, id) {
      forall i: nat | i < |n.children|
        ensures ChildAccepted(nodes, rank, id, i, lo, hi) <==> ChildBetween(nodes, rank, id, i, lo, hi)
      {
        ChildIsLinked(nodes, rank, id, i);
      }
      ListingSplits(nodes, rank, id, |n.values|, lo, hi);
      if forall j: nat | j <= |n.values| :: ChildBetween(nodes, rank, id, j, lo, hi) {
        ValuesBetween(nodes, rank, id, lo, hi);
        LeafBetween(lo, n.values, hi);
      }
      assert Accepted(nodes, rank, id, lo, hi) ==> forall j: nat | j < |n.children| ::
        ChildAccepted(nodes, rank, id, j, lo, hi);
    }
  }

  // ----- what the test computes -----

  /** The loop over neighbouring values. */
  method ValuesInOrder(v: seq<int>) returns (ok: bool)
    ensures ok <==> NonDecreasing(v)
  {
    var i := 1;
    while i < |v|
      invariant 1 <= i && (|v| > 0 ==> i <= |v| && NonDecreasing(v[..i]))
    {
      if v[i] < v[i - 1] { return false; }
      OneMoreInOrder(v, i);
      i := i + 1;
    }
    assert |v| > 0 ==> v[..i] == v;
    return true;
  }

  lemma OneMoreInOrder(v: seq<int>, i: nat)
    requires 1 <= i < |v| && NonDecreasing(v[..i]) && v[i - 1] <= v[i]
    ensures NonDecreasing(v[..i + 1])
  {
    var a, b := v[..i], v[..i + 1];
    forall x, y | 0 <= x < y < |b| ensures b[x] <= b[y] {
      assert x < i - 1 ==> a[x] <= a[i - 1];
      assert y < i ==> a[x] <= a[y];
    }
  }

  /** The number of values below the first `i` children. */
  ghost function ValuesBelow(nodes: Nodes, rank: Ranks, id: Id, i: nat): (c: nat)
    requires Acyclic(nodes, rank) && id in nodes && i <= |nodes[id].children|
  {
    if i == 0 then 0
    else
      ValuesBelow(nodes, rank, id, i - 1)
      + if ChildLinkedAt(nodes, rank, id, i - 1) then |Listing(nodes, rank, nodes[id].children[i - 1])| else 0
  }

  lemma {:induction false} ListingLength(nodes: Nodes, rank: Ranks, id: Id, i: nat)
    requires Acyclic(nodes, rank) && id in nodes && TreeLinked(nodes, rank, id)
    requires !nodes[id].leaf && i <= |nodes[id].values| && |nodes[id].children| == |nodes[id].values| + 1
    ensures |ListingTo(nodes, rank, id, i)| == i + ValuesBelow(nodes, rank, id, i + 1)
  {
    ChildIsLinked(nodes, rank, id, i);
    if i > 0 { ListingLength(nodes, rank, id, i - 1); }
  }

  lemma LeafListing(nodes: Nodes, rank: Ranks, id: Id)
    requires Acyclic(nodes, rank) && id in nodes && NodeLinked(nodes, id) && nodes[id].leaf
    ensures TreeLinked(nodes, rank, id) && Listing(nodes, rank, id) == nodes[id].values
  {
  }

  /** The node's own part of the test. */
  predicate AcceptedHere(n: Node, lo: int, hi: int) {
    0 < |n.values| <= n.maxCount && lo <= n.values[0] && n.values[|n.values| - 1] <= hi && NonDecreasing(n.values)
  }

  lemma AllChildrenAccepted(nodes: Nodes, rank: Ranks, id: Id, lo: int, hi: int)
    requires Acyclic(nodes, rank) && id in nodes && AcceptedHere(nodes[id], lo, hi) && !nodes[id].leaf
    requires |nodes[id].children| == |nodes[id].values| + 1
    requires forall i: nat | i < |nodes[id].children| :: ChildAccepted(nodes, rank, id, i, lo, hi)
    ensures Accepted(nodes, rank, id, lo, hi) && TreeLinked(nodes, rank, id)
    ensures |Listing(nodes, rank, id)| == |nodes[id].values| + ValuesBelow(nodes, rank, id, |nodes[id].children|)
  {
    var v := nodes[id].values;
    forall i | 0 <= i < |nodes[id].children|
      ensures ChildLinked(nodes, id, i)
      ensures Accepted(nodes, rank, nodes[id].children[i], LeftOf(v, i, lo), RightOf(v, i, hi))
    {
      assert ChildAccepted(nodes, rank, id, i, lo, hi);
    }
    AcceptsExactly(nodes, rank, id, lo, hi);
    ListingLength(nodes, rank, id, |nodes[id].values|);
  }

  // ----- valid trees -----

  ghost function Levels(info: Infos): (rank: Ranks) {
    map id | id in info :: info[id].level
  }

  lemma LevelsFall(nodes: Nodes, info: Infos, home: Home, root: Id)
    requires Linked(nodes, info, home, root)
    ensures Acyclic(nodes, Levels(info))
  {
    forall id, i | id in nodes && 0 <= i < |nodes[id].children| && nodes[id].children[i] in nodes
      ensures info[nodes[id].children[i]].level < info[id].level
    {
      assert NodeOk(nodes, info, home, root, id) && ChildOk(nodes, info, id, i);
    }
  }

  /** Every node of a valid tree heads a linked tree, listed in order. */
  lemma {:induction false} ValidIsLinked(nodes: Nodes, info: Infos, home: Home, root: Id, cap: nat, id: Id)
    requires Linked(nodes, info, home, root) && Filled(nodes, root, cap, NONE) && id in nodes
    ensures Acyclic(nodes, Levels(info)) && id in info
    ensures TreeLinked(nodes, Levels(info), id)
    ensures Listing(nodes, Levels(info), id) == InOrder(nodes, info, home, root, id)
    decreases info[id].level, |nodes[id].values| + 1
  {
    LevelsFall(nodes, info, home, root);
    NodeIsLinked(nodes, info, home, root, cap, id);
    if !nodes[id].leaf {
      forall i: nat | i < |nodes[id].children|
        ensures ChildLinked(nodes, id, i) && TreeLinked(nodes, Levels(info), nodes[id].children[i])
      {
        assert NodeOk(nodes, info, home, root, id) && ChildOk(nodes, info, id, i);
        ValidIsLinked(nodes, info, home, root, cap, nodes[id].children[i]);
      }
      SameListing(nodes, info, home, root, cap, id, |nodes[id].values|);
    }
  }

  lemma {:induction false} SameListing(nodes: Nodes, info: Infos, home: Home, root: Id, cap: nat, id: Id, i: nat)
    requires Linked(nodes, info, home, root) && Filled(nodes, root, cap, NONE) && id in nodes && id in info
    requires Acyclic(nodes, Levels(info)) && TreeLinked(nodes, Levels(info), id)
    requires !nodes[id].leaf && i <= |nodes[id].values|
    ensures ListingTo(nodes, Levels(info), id, i) == UpTo(nodes, info, home, root, id, i)
    decreases info[id].level, i
  {
    assert NodeOk(nodes, info, home, root, id) && ChildOk(nodes, info, id, i);
    ValidIsLinked(nodes, info, home, root, cap, nodes[id].children[i]);
    if i > 0 { SameListing(nodes, info, home, root, cap, id, i - 1); }
  }

  lemma NodeIsLinked(nodes: Nodes, info: Infos, home: Home, root: Id, cap: nat, id: Id)
    requires Linked(nodes, info, home, root) && Filled(nodes, root, cap, NONE) && id in nodes
    ensures NodeLinked(nodes, id)
  {
    RootFacts(nodes, info, home, root);
    assert NodeOk(nodes, info, home, root, id) && NodeFilled(nodes[id], id == root, cap, id == NONE);
    if !nodes[id].leaf {
      forall i: nat | i < |nodes[id].children| ensures ChildLinked(nodes, id, i) {
        assert ChildOk(nodes, info, id, i);
      }
    }
  }

  /** Every node of a valid tree is accepted. */
  lemma ValidIsAccepted(nodes: Nodes, info: Infos, home: Home, root: Id, cap: nat, id: Id)
    requires Linked(nodes, info, home, root) && Filled(nodes, root, cap, NONE) && id in nodes
    ensures Acyclic(nodes, Levels(info)) && id in info
    ensures Accepted(nodes, Levels(info), id, info[id].lo, info[id].hi)
  {
    hide NodeOk, TreeLinked, Accepted;
    ValidIsLinked(nodes, info, home, root, cap, id);
    InOrderSorted(nodes, info, home, root, id);
    NodeKeys(nodes, info, home, root, id);
    AcceptsExactly(nodes, Levels(info), id, info[id].lo, info[id].hi);
  }

  // ----- accepted trees that are not valid -----

  /** A leaf with the same key twice passes the test. */
  lemma EqualNeighboursPass()
    ensures var nodes: Nodes := map[1 := Node(true, [5, 5], [], NONE, 0, 2)];
      Acyclic(nodes, map[1 := 0]) && Accepted(nodes, map[1 := 0], 1, -1, TWO_64)
      && forall info, home :: !Linked(nodes, info, home, 1)
  {
    var nodes: Nodes := map[1 := Node(true, [5, 5], [], NONE, 0, 2)];
    forall info, home ensures !Linked(nodes, info, home, 1) {
      if Linked(nodes, info, home, 1) { ValidIncreases(nodes, info, home, 1, 1, 0); }
    }
  }

  lemma ValidIncreases(nodes: Nodes, info: Infos, home: Home, root: Id, id: Id, i: nat)
    requires Linked(nodes, info, home, root) && id in nodes && i + 1 < |nodes[id].values|
    ensures nodes[id].values[i] < nodes[id].values[i + 1]
  {
    NodeKeys(nodes, info, home, root, id);
  }

  /** A root whose left child is a leaf and whose right child is not. */
  function Lopsided(): (nodes: Nodes) {
    map[1 := Node(false, [5], [2, 3], NONE, 0, 3), 2 := Node(true, [3], [], 1, 0, 3),
        3 := Node(false, [7], [4, 5], 1, 1, 3), 4 := Node(true, [6], [], 3, 0, 3), 5 := Node(true, [8], [], 3, 1, 3)]
  }

  /** Leaves at different depths pass the test. */
  lemma UnequalDepthsPass()
    ensures var rank: Ranks := map[1 := 2, 2 := 0, 3 := 1, 4 := 0, 5 := 0];
      Acyclic(Lopsided(), rank) && Accepted(Lopsided(), rank, 1, -1, TWO_64)
      && forall info, home :: !Linked(Lopsided(), info, home, 1)
  {
    var nodes, rank: Ranks := Lopsided(), map[1 := 2, 2 := 0, 3 := 1, 4 := 0, 5 := 0];
    LopsidedIsAccepted(rank);
    hide Accepted, Acyclic;
    forall info, home ensures !Linked(nodes, info, home, 1) {
      if Linked(nodes, info, home, 1) {
        SiblingLevels(nodes, info, home, 1, 1);
      }
    }
  }

  lemma LopsidedIsAccepted(rank: Ranks)
    requires rank == map[1 := 2, 2 := 0, 3 := 1, 4 := 0, 5 := 0]
    ensures Acyclic(Lopsided(), rank) && Accepted(Lopsided(), rank, 1, -1, TWO_64)
  {
    var nodes := Lopsided();
    assert Accepted(nodes, rank, 4, 5, 7) && Accepted(nodes, rank, 5, 7, TWO_64);
    assert ChildLinked(nodes, 3, 0) && ChildLinked(nodes, 3, 1);
    assert Accepted(nodes, rank, 3, 5, TWO_64) && Accepted(nodes, rank, 2, -1, 5);
    assert ChildLinked(nodes, 1, 0) && ChildLinked(nodes, 1, 1);
  }

  lemma SiblingLevels(nodes: Nodes, info: Infos, home: Home, root: Id, id: Id)
    requires Linked(nodes, info, home, root) && id in nodes && |nodes[id].children| >= 2
    ensures var a, b := nodes[id].children[0], nodes[id].children[1];
            a in nodes && b in nodes && nodes[a].leaf == nodes[b].leaf
  {
    assert NodeOk(nodes, info, home, root, id) && ChildOk(nodes, info, id, 0) && ChildOk(nodes, info, id, 1);
    assert NodeOk(nodes, info, home, root, nodes[id].children[0]);
    assert NodeOk(nodes, info, home, root, nodes[id].children[1]);
  }
}
