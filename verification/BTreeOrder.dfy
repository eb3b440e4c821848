/** The in-order sequence of the keys of a tree, and why the key set determines it. */
module BTreeOrder {
  import opened Hashing
  import opened BTreeShape
  import opened BTreeSplit

  /** The keys below a node, from left to right. */
  ghost function InOrder(nodes: Nodes, info: Infos, home: Home, root: Id, id: Id): (s: seq<int>)
    requires Linked(nodes, info, home, root) && id in nodes
    decreases info[id].level, |nodes[id].values| + 1
  {
    assert NodeOk(nodes, info, home, root, id);
    if nodes[id].leaf then nodes[id].values else UpTo(nodes, info, home, root, id, |nodes[id].values|)
  }

  /** The keys of children 0 to `i` of a node and the node's own keys between them. */
  ghost function UpTo(nodes: Nodes, info: Infos, home: Home, root: Id, id: Id, i: nat): (s: seq<int>)
    requires Linked(nodes, info, home, root) && id in nodes && !nodes[id].leaf && i <= |nodes[id].values|
    decreases info[id].level, i
  {
    assert NodeOk(nodes, info, home, root, id) && ChildOk(nodes, info, id, i);
    var last := InOrder(nodes, info, home, root, nodes[id].children[i]);
    if i == 0 then last else UpTo(nodes, info, home, root, id, i - 1) + [nodes[id].values[i - 1]] + last
  }

  /** The in-order sequence is strictly increasing and stays inside the interval of its node. */
  lemma {:induction false} InOrderSorted(nodes: Nodes, info: Infos, home: Home, root: Id, id: Id)
    requires Linked(nodes, info, home, root) && id in nodes
    ensures Increasing(InOrder(nodes, info, home, root, id))
    ensures Inside(InOrder(nodes, info, home, root, id), info[id].lo, info[id].hi)
    decreases info[id].level, |nodes[id].values| + 1
  {
    assert NodeOk(nodes, info, home, root, id);
    if !nodes[id].leaf { UpToSorted(nodes, info, home, root, id, |nodes[id].values|); }
  }

  lemma {:induction false} UpToSorted(nodes: Nodes, info: Infos, home: Home, root: Id, id: Id, i: nat)
    requires Linked(nodes, info, home, root) && id in nodes && !nodes[id].leaf && i <= |nodes[id].values|
    ensures var s := UpTo(nodes, info, home, root, id, i);
            Increasing(s) && Inside(s, info[id].lo, RightOf(nodes[id].values, i, info[id].hi)) &&
                info[id].lo < RightOf(nodes[id].values, i, info[id].hi)
    decreases info[id].level, i
  {
    assert NodeOk(nodes, info, home, root, id) && ChildOk(nodes, info, id, i);
    var c := nodes[id].children[i];
    InOrderSorted(nodes, info, home, root, c);
    assert NodeOk(nodes, info, home, root, c);
    if i > 0 {
      UpToSorted(nodes, info, home, root, id, i - 1);
      JoinedKeys(UpTo(nodes, info, home, root, id, i - 1), nodes[id].values[i - 1], InOrder(nodes, info, home, root, c),
                 info[id].lo, RightOf(nodes[id].values, i, info[id].hi));
    }
  }

  /** Every key listed is stored. */
  lemma {:induction false} ListedIsStored(nodes: Nodes, info: Infos, home: Home, root: Id, id: Id, k: int)
    requires Linked(nodes, info, home, root) && id in nodes && k in InOrder(nodes, info, home, root, id)
    ensures k in home
    decreases info[id].level, |nodes[id].values| + 1
  {
    assert NodeOk(nodes, info, home, root, id);
    if !nodes[id].leaf { ListedUpTo(nodes, info, home, root, id, |nodes[id].values|, k); }
  }

  lemma {:induction false} ListedUpTo(nodes: Nodes, info: Infos, home: Home, root: Id, id: Id, i: nat, k: int)
    requires Linked(nodes, info, home, root) && id in nodes && !nodes[id].leaf && i <= |nodes[id].values|
    requires k in UpTo(nodes, info, home, root, id, i)
    ensures k in home
    decreases info[id].level, i
  {
    assert NodeOk(nodes, info, home, root, id) && ChildOk(nodes, info, id, i);
    var c := nodes[id].children[i];
    if k in InOrder(nodes, info, home, root, c) {
      ListedIsStored(nodes, info, home, root, c, k);
    } else if i > 0 && k in UpTo(nodes, info, home, root, id, i - 1) {
      ListedUpTo(nodes, info, home, root, id, i - 1, k);
    }
  }

  /** The in-order keys of a child are among those of its parent. */
  lemma {:induction false} ChildListed(nodes: Nodes, info: Infos, home: Home, root: Id, id: Id, i: nat, j: nat, k: int)
    requires Linked(nodes, info, home, root) && id in nodes && !nodes[id].leaf && j <= i <= |nodes[id].values|
    requires j < |nodes[id].children| && nodes[id].children[j] in nodes
    requires k in InOrder(nodes, info, home, root, nodes[id].children[j])
    ensures k in UpTo(nodes, info, home, root, id, i)
    decreases i
  {
    if j < i { ChildListed(nodes, info, home, root, id, i - 1, j, k); }
  }

  lemma {:induction false} OwnListed(nodes: Nodes, info: Infos, home: Home, root: Id, id: Id, i: nat, j: nat)
    requires Linked(nodes, info, home, root) && id in nodes && !nodes[id].leaf && j < i <= |nodes[id].values|
    ensures nodes[id].values[j] in UpTo(nodes, info, home, root, id, i)
    decreases i
  {
    if j < i - 1 { OwnListed(nodes, info, home, root, id, i - 1, j); }
  }

  /** A key listed below any node is listed below the root. */
  lemma {:induction false} ListedAbove(nodes: Nodes, info: Infos, home: Home, root: Id, id: Id, k: int)
    requires Linked(nodes, info, home, root) && id in nodes && k in InOrder(nodes, info, home, root, id)
    ensures k in InOrder(nodes, info, home, root, root)
    decreases info[root].level - info[id].level
  {
    if id != root {
      assert NodeOk(nodes, info, home, root, id);
      var x, i := nodes[id].parent, nodes[id].position;
      assert NodeOk(nodes, info, home, root, x) && ChildOk(nodes, info, x, i);
      ChildListed(nodes, info, home, root, x, |nodes[x].values|, i, k);
      ListedAbove(nodes, info, home, root, x, k);
    }
  }

  /** The in-order sequence of the root lists exactly the stored keys. */
  lemma AllListed(nodes: Nodes, info: Infos, home: Home, root: Id)
    requires Linked(nodes, info, home, root)
    ensures forall k :: k in InOrder(nodes, info, home, root, root) <==> k in home
  {
    forall k ensures k in InOrder(nodes, info, home, root, root) <==> k in home {
      if k in InOrder(nodes, info, home, root, root) { ListedIsStored(nodes, info, home, root, root, k); }
      if k in home {
        var id := home[k];
        var j :| 0 <= j < |nodes[id].values| && nodes[id].values[j] == k;
        if !nodes[id].leaf { OwnListed(nodes, info, home, root, id, |nodes[id].values|, j); }
        ListedAbove(nodes, info, home, root, id, k);
      }
    }
  }

  // ----- depth -----

  /** The number of parent links from a node to the root. */
  ghost function Depth(nodes: Nodes, info: Infos, home: Home, root: Id, id: Id): (d: nat)
    requires Linked(nodes, info, home, root) && id in nodes
    ensures d + info[id].level == info[root].level
    decreases info[root].level - info[id].level
  {
    if id == root then 0
    else
      assert NodeOk(nodes, info, home, root, id);
      assert NodeOk(nodes, info, home, root, nodes[id].parent) &&
          ChildOk(nodes, info, nodes[id].parent, nodes[id].position);
      1 + Depth(nodes, info, home, root, nodes[id].parent)
  }

  /** All leaves are equally far from the root, and no other node is as far. */
  lemma LeavesAtEqualDepth(nodes: Nodes, info: Infos, home: Home, root: Id, x: Id, y: Id)
    requires Linked(nodes, info, home, root) && x in nodes && y in nodes && nodes[x].leaf
    ensures nodes[y].leaf <==> Depth(nodes, info, home, root, y) == Depth(nodes, info, home, root, x)
  {
    assert NodeOk(nodes, info, home, root, x) && NodeOk(nodes, info, home, root, y);
  }

  // ----- increasing sequences -----

  function SortedInsert(s: seq<int>, k: int): (r: seq<int>) {
    if |s| == 0 || k < s[0] then [k] + s else [s[0]] + SortedInsert(s[1..], k)
  }

  function SortedRemove(s: seq<int>, k: int): (r: seq<int>) {
    if |s| == 0 then [] else if s[0] == k then s[1..] else [s[0]] + SortedRemove(s[1..], k)
  }

  predicate Among(a: seq<int>, b: seq<int>) {
    forall i | 0 <= i < |a| :: a[i] in b
  }

  /** An increasing sequence is determined by its elements. */
  lemma {:induction false} SameElements(a: seq<int>, b: seq<int>)
    requires Increasing(a) && Increasing(b) && Among(a, b) && Among(b, a)
    ensures a == b
  {
    assert |a| > 0 ==> a[0] in b;
    assert |b| > 0 ==> b[0] in a;
    if |a| > 0 && |b| > 0 {
      assert a[0] == b[0];
      TailAmong(a, b);
      TailAmong(b, a);
      SameElements(a[1..], b[1..]);
      assert a == [a[0]] + a[1..] && b == [b[0]] + b[1..];
    }
  }

  lemma TailAmong(a: seq<int>, b: seq<int>)
    requires Increasing(a) && |a| > 0 && |b| > 0 && a[0] == b[0] && Among(a, b)
    ensures Among(a[1..], b[1..])
  {
    forall i | 0 <= i < |a[1..]| ensures a[1..][i] in b[1..] {
      assert a[i + 1] in b && a[0] < a[i + 1];
      var j :| 0 <= j < |b| && b[j] == a[i + 1];
      assert b[1..][j - 1] == b[j];
    }
  }

  predicate NoneBelow(s: seq<int>, lo: int) {
    forall i | 0 <= i < |s| :: lo < s[i]
  }

  lemma FirstAndRest(s: seq<int>)
    requires |s| > 0 && Increasing(s)
    ensures s == [s[0]] + s[1..] && Increasing(s[1..]) && NoneBelow(s[1..], s[0])
  {
  }

  lemma PutInFront(x: int, r: seq<int>)
    requires Increasing(r) && NoneBelow(r, x)
    ensures Increasing([x] + r)
  {
  }

  lemma NoMemberBelow(r: seq<int>, lo: int)
    requires forall x :: x in r ==> lo < x
    ensures NoneBelow(r, lo)
  {
    forall i | 0 <= i < |r| ensures lo < r[i] { assert r[i] in r; }
  }

  lemma {:induction false} SortedInsertFacts(s: seq<int>, k: int)
    requires Increasing(s) && k !in s
    ensures Increasing(SortedInsert(s, k)) && forall x :: x in SortedInsert(s, k) <==> x == k || x in s
  {
    hide Increasing, NoneBelow;
    if |s| == 0 {
      assert [k] + s == [k];
      OneIncreases(k);
    } else if k < s[0] {
      FirstAndRest(s);
      BelowFirst(s, k);
      NoMemberBelow(s, k);
      PutInFront(k, s);
    } else {
      var t, r := s[1..], SortedInsert(s[1..], k);
      FirstAndRest(s);
      SortedInsertFacts(t, k);
      MembersAbove(t, s[0]);
      NoMemberBelow(r, s[0]);
      PutInFront(s[0], r);
    }
  }

  lemma OneIncreases(k: int)
    ensures Increasing([k])
  {
  }

  lemma BelowFirst(s: seq<int>, k: int)
    requires Increasing(s) && |s| > 0 && k < s[0]
    ensures forall x :: x in s ==> k < x
  {
  }

  lemma MembersAbove(s: seq<int>, lo: int)
    requires NoneBelow(s, lo)
    ensures forall x :: x in s ==> lo < x
  {
  }

  lemma {:induction false} SortedRemoveFacts(s: seq<int>, k: int)
    requires Increasing(s)
    ensures Increasing(SortedRemove(s, k)) && forall x :: x in SortedRemove(s, k) <==> x in s && x != k
  {
    hide Increasing, NoneBelow;
    if |s| > 0 {
      var t := s[1..];
      FirstAndRest(s);
      MembersAbove(t, s[0]);
      if s[0] != k {
        SortedRemoveFacts(t, k);
        NoMemberBelow(SortedRemove(t, k), s[0]);
        PutInFront(s[0], SortedRemove(t, k));
      }
    } else {
      assert s == [];
    }
  }

  /** As many keys as the sequence is long. */
  lemma {:induction false} CountIncreasing(s: seq<int>, ks: set<int>)
    requires Increasing(s) && (forall i | 0 <= i < |s| :: s[i] in ks) && forall k | k in ks :: k in s
    ensures |s| == |ks|
  {
    if |s| == 0 {
      assert s == [];
      assert forall k :: k !in ks;
      assert ks == {};
    } else {
      var k, t := s[0], s[1..];
      forall i | 0 <= i < |t| ensures t[i] in ks - {k} { assert t[i] == s[i + 1]; }
      forall x | x in ks - {k} ensures x in t { assert x in s && s == [k] + t; }
      CountIncreasing(t, ks - {k});
    }
  }

  // ----- the keys of a whole tree -----

  /** The in-order sequence is the increasing list of the stored keys. */
  lemma TreeLists(nodes: Nodes, info: Infos, home: Home, root: Id)
    requires Linked(nodes, info, home, root)
    ensures root in nodes
    ensures var s := InOrder(nodes, info, home, root, root);
            && Increasing(s) && |s| == |home.Keys|
            && (forall i | 0 <= i < |s| :: s[i] in home) && (forall k | k in home :: k in s)
  {
    hide NodeOk, InOrder;
    AllListed(nodes, info, home, root);
    InOrderSorted(nodes, info, home, root, root);
    CountIncreasing(InOrder(nodes, info, home, root, root), home.Keys);
  }

  lemma InsertedOrder(s: seq<int>, t: seq<int>, home: Home, home': Home, k: int)
    requires Increasing(s) && (forall i | 0 <= i < |s| :: s[i] in home) && (forall x | x in home :: x in s)
    requires Increasing(t) && (forall i | 0 <= i < |t| :: t[i] in home') && (forall x | x in home' :: x in t)
    requires k !in home && home'.Keys == home.Keys + {k}
    ensures t == SortedInsert(s, k)
  {
    SortedInsertFacts(s, k);
    var r := SortedInsert(s, k);
    forall i | 0 <= i < |t| ensures t[i] in r {
      var x := t[i];
      assert x in home' && (x == k || x in home);
      assert x in s || x == k;
    }
    forall i | 0 <= i < |r| ensures r[i] in t {
      var x := r[i];
      assert x in r && (x == k || x in s);
      assert x in home.Keys + {k};
    }
    SameElements(t, r);
  }

  lemma RemovedOrder(s: seq<int>, t: seq<int>, home: Home, home': Home, k: int)
    requires Increasing(s) && (forall i | 0 <= i < |s| :: s[i] in home) && (forall x | x in home :: x in s)
    requires Increasing(t) && (forall i | 0 <= i < |t| :: t[i] in home') && (forall x | x in home' :: x in t)
    requires home'.Keys == home.Keys - {k}
    ensures t == SortedRemove(s, k)
  {
    SortedRemoveFacts(s, k);
    var r := SortedRemove(s, k);
    forall i | 0 <= i < |t| ensures t[i] in r {
      var x := t[i];
      assert x in home' && x in home && x != k;
      assert x in s;
    }
    forall i | 0 <= i < |r| ensures r[i] in t {
      var x := r[i];
      assert x in r && x in s && x != k;
      assert x in home'.Keys;
    }
    SameElements(t, r);
  }
}
