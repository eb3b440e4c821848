/** Growing and shrinking the tree at its root, and inserting and removing keys in a leaf. */
module BTreeRoot {
  import opened Hashing
  import opened BTreeShape
  import opened BTreeSplit

  // ----- a leaf root gets a new root above it -----

  function Raised(nodes: Nodes, root: Id, top: Id, maxCount: nat): (m: Nodes)
    requires root in nodes
  {
    nodes[root := nodes[root].(parent := top, position := 0)][top := Node(false, [], [root], NONE, 0, maxCount)]
  }

  ghost function RaisedInfo(info: Infos, root: Id, top: Id): (f: Infos)
    requires root in info
  {
    info[top := Info(info[root].level + 1, info[root].lo, info[root].hi)]
  }

  lemma RaiseKeeps(nodes: Nodes, info: Infos, home: Home, root: Id, top: Id, mc: nat)
    requires Linked(nodes, info, home, root) && top !in nodes && top != NONE
    ensures Linked(Raised(nodes, root, top, mc), RaisedInfo(info, root, top), home, top)
  {
    var m, f := Raised(nodes, root, top, mc), RaisedInfo(info, root, top);
    forall id | id in m ensures NodeOk(m, f, home, top, id) { RaiseNode(nodes, info, home, root, top, mc, id); }
  }

  lemma RaiseNode(nodes: Nodes, info: Infos, home: Home, root: Id, top: Id, mc: nat, id: Id)
    requires Linked(nodes, info, home, root) && top !in nodes && top != NONE && (id in nodes || id == top)
    ensures NodeOk(Raised(nodes, root, top, mc), RaisedInfo(info, root, top), home, top, id)
  {
    var m, f := Raised(nodes, root, top, mc), RaisedInfo(info, root, top);
    if id == top {
      assert NodeOk(nodes, info, home, root, root);
      assert ChildOk(m, f, top, 0);
    } else {
      assert NodeOk(nodes, info, home, root, id);
      forall i | 0 <= i < |m[id].children| ensures ChildOk(m, f, id, i) {
        assert ChildOk(nodes, info, id, i);
        assert NodeOk(nodes, info, home, root, root);
        assert nodes[id].children[i] != root;
      }
    }
  }

  // ----- an internal root hands its contents to a new node below it -----

  function PushedNode(nodes: Nodes, root: Id, low: Id, id: Id): (n: Node)
    requires root in nodes && (id in nodes || id == low)
  {
    if id == low then nodes[root].(parent := root, position := 0)
    else if id == root then nodes[root].(values := [], children := [low])
    else if nodes[id].parent == root then nodes[id].(parent := low)
    else nodes[id]
  }

  function Pushed(nodes: Nodes, root: Id, low: Id): (m: Nodes)
    requires root in nodes
  {
    map id | id in nodes.Keys + {low} :: PushedNode(nodes, root, low, id)
  }

  ghost function PushedInfo(info: Infos, root: Id, low: Id): (f: Infos)
    requires root in info
  {
    info[root := Info(info[root].level + 1, info[root].lo, info[root].hi)][low := info[root]]
  }

  ghost function PushedHome(home: Home, root: Id, low: Id): (h: Home) {
    map x | x in home :: if home[x] == root then low else home[x]
  }

  lemma PushKeeps(nodes: Nodes, info: Infos, home: Home, root: Id, low: Id)
    requires Linked(nodes, info, home, root) && low !in nodes && low != NONE && !nodes[root].leaf
    ensures Linked(Pushed(nodes, root, low), PushedInfo(info, root, low), PushedHome(home, root, low), root)
    ensures PushedHome(home, root, low).Keys == home.Keys
  {
    hide NodeOk;
    var m, f, h := Pushed(nodes, root, low), PushedInfo(info, root, low), PushedHome(home, root, low);
    forall id | id in m ensures NodeOk(m, f, h, root, id) { PushNode(nodes, info, home, root, low, id); }
  }

  lemma PushNode(nodes: Nodes, info: Infos, home: Home, root: Id, low: Id, id: Id)
    requires Linked(nodes, info, home, root) && low !in nodes
    requires low != NONE && !nodes[root].leaf && (id in nodes || id == low)
    ensures NodeOk(Pushed(nodes, root, low), PushedInfo(info, root, low), PushedHome(home, root, low), root, id)
  {
    hide StoredOk;
    var m, f := Pushed(nodes, root, low), PushedInfo(info, root, low);
    assert NodeOk(nodes, info, home, root, root);
    if id == root {
      assert ChildOk(m, f, root, 0);
    } else {
      var before := if id == low then root else id;
      assert NodeOk(nodes, info, home, root, before);
      forall i | 0 <= i < |m[id].children| ensures ChildOk(m, f, id, i) {
        PushChild(nodes, info, home, root, low, id, i);
      }
    }
  }

  lemma PushChild(nodes: Nodes, info: Infos, home: Home, root: Id, low: Id, id: Id, i: nat)
    requires Linked(nodes, info, home, root) && low !in nodes && (id in nodes || id == low) && id != root
    requires i < |nodes[if id == low then root else id].children|
    ensures ChildOk(Pushed(nodes, root, low), PushedInfo(info, root, low), id, i)
  {
    hide StoredOk, KeysOk, HomeOk, SizeOk;
    var before := if id == low then root else id;
    assert NodeOk(nodes, info, home, root, before) && NodeOk(nodes, info, home, root, root);
    assert ChildOk(nodes, info, before, i);
    assert nodes[before].children[i] != root;
  }

  // ----- an empty root gives way to its only child -----

  /** `try_shrink` with a leaf child: the child becomes the root. */
  function Lowered(nodes: Nodes, root: Id, child: Id): (m: Nodes)
    requires child in nodes
  {
    map id | id in nodes && id != root :: if id == child then nodes[id].(parent := NONE) else nodes[id]
  }

  ghost predicate EmptyRoot(nodes: Nodes, root: Id, child: Id) {
    root in nodes && nodes[root].values == [] && nodes[root].children == [child] && child in nodes
  }

  lemma LowerKeeps(nodes: Nodes, info: Infos, home: Home, root: Id, child: Id)
    requires Linked(nodes, info, home, root) && EmptyRoot(nodes, root, child)
    ensures Linked(Lowered(nodes, root, child), info - {root}, home, child)
  {
    hide NodeOk;
    var m, f := Lowered(nodes, root, child), info - {root};
    OnlyChild(nodes, info, home, root, child);
    assert forall k | k in home :: home[k] != root by {
      forall k | k in home ensures home[k] != root { assert k in nodes[home[k]].values; }
    }
    forall id | id in m ensures NodeOk(m, f, home, child, id) { LowerNode(nodes, info, home, root, child, id); }
  }

  lemma OnlyChild(nodes: Nodes, info: Infos, home: Home, root: Id, child: Id)
    requires Linked(nodes, info, home, root) && EmptyRoot(nodes, root, child)
    ensures child != root && info[child] == Info(info[root].level - 1, -1, TWO_64) && info[root].level > 0
    ensures nodes[child].parent == root && nodes[child].position == 0
    ensures forall id | id in nodes && id != root && id != child ::
              nodes[id].parent != root && info[id].level < info[child].level
  {
    assert NodeOk(nodes, info, home, root, root) && ChildOk(nodes, info, root, 0);
    forall id | id in nodes && id != root && id != child
      ensures nodes[id].parent != root && info[id].level < info[child].level
    {
      assert NodeOk(nodes, info, home, root, id);
      assert nodes[id].parent != root;
      var x := nodes[id].parent;
      assert NodeOk(nodes, info, home, root, x) && ChildOk(nodes, info, x, nodes[id].position);
    }
  }

  lemma LowerNode(nodes: Nodes, info: Infos, home: Home, root: Id, child: Id, id: Id)
    requires Linked(nodes, info, home, root) && EmptyRoot(nodes, root, child) && child != root && id in nodes
    requires id != root
    requires nodes[child].parent == root
    requires forall id | id in nodes && id != root && id != child ::
              nodes[id].parent != root && info[id].level < info[child].level
    ensures NodeOk(Lowered(nodes, root, child), info - {root}, home, child, id)
  {
    var m, f := Lowered(nodes, root, child), info - {root};
    assert NodeOk(nodes, info, home, root, id);
    forall i | 0 <= i < |m[id].children| ensures ChildOk(m, f, id, i) {
      assert ChildOk(nodes, info, id, i);
      assert NodeOk(nodes, info, home, root, root);
      assert nodes[id].children[i] != root && nodes[id].children[i] != child;
    }
  }

  /** `try_shrink` with an internal child: its contents move into the root. */
  function Pulled(nodes: Nodes, root: Id, child: Id): (m: Nodes)
    requires child in nodes && root in nodes
  {
    map id | id in nodes && id != child ::
      if id == root then nodes[root].(values := nodes[child].values, children := nodes[child].children)
      else if nodes[id].parent == child then nodes[id].(parent := root)
      else nodes[id]
  }

  ghost function PulledInfo(info: Infos, root: Id, child: Id): (f: Infos)
    requires child in info
  {
    map id | id in info && id != child :: if id == root then info[child] else info[id]
  }

  ghost function PulledHome(home: Home, root: Id, child: Id): (h: Home) {
    map x | x in home :: if home[x] == child then root else home[x]
  }

  lemma PullKeeps(nodes: Nodes, info: Infos, home: Home, root: Id, child: Id)
    requires Linked(nodes, info, home, root) && EmptyRoot(nodes, root, child) && !nodes[child].leaf
    ensures Linked(Pulled(nodes, root, child), PulledInfo(info, root, child), PulledHome(home, root, child), root)
    ensures PulledHome(home, root, child).Keys == home.Keys
  {
    hide NodeOk;
    var m, f, h := Pulled(nodes, root, child), PulledInfo(info, root, child), PulledHome(home, root, child);
    OnlyChild(nodes, info, home, root, child);
    forall k | k in h ensures h[k] in m && k in m[h[k]].values { assert k in nodes[home[k]].values; }
    forall id | id in m ensures NodeOk(m, f, h, root, id) { PullNode(nodes, info, home, root, child, id); }
  }

  lemma PullNode(nodes: Nodes, info: Infos, home: Home, root: Id, child: Id, id: Id)
    requires Linked(nodes, info, home, root) && EmptyRoot(nodes, root, child) && child != root && id in nodes
    requires id != child
    requires !nodes[child].leaf && info[child] == Info(info[root].level - 1, -1, TWO_64)
    requires nodes[child].parent == root
    requires forall id | id in nodes && id != root && id != child ::
              nodes[id].parent != root && info[id].level < info[child].level
    ensures NodeOk(Pulled(nodes, root, child), PulledInfo(info, root, child), PulledHome(home, root, child), root, id)
  {
    hide StoredOk, ChildOk;
    var m, f := Pulled(nodes, root, child), PulledInfo(info, root, child);
    var before := if id == root then child else id;
    assert NodeOk(nodes, info, home, root, before) && NodeOk(nodes, info, home, root, root);
    forall i | 0 <= i < |m[id].children| ensures ChildOk(m, f, id, i) {
      PullChild(nodes, info, home, root, child, id, i);
    }
  }

  lemma PullChild(nodes: Nodes, info: Infos, home: Home, root: Id, child: Id, id: Id, i: nat)
    requires Linked(nodes, info, home, root) && EmptyRoot(nodes, root, child) && child != root && id in nodes
    requires id != child
    requires info[child] == Info(info[root].level - 1, -1, TWO_64) && nodes[child].parent == root
    requires forall id | id in nodes && id != root && id != child :: nodes[id].parent != root
    requires i < |nodes[if id == root then child else id].children|
    ensures ChildOk(Pulled(nodes, root, child), PulledInfo(info, root, child), id, i)
  {
    hide StoredOk, KeysOk, HomeOk, SizeOk;
    var before := if id == root then child else id;
    assert NodeOk(nodes, info, home, root, before) && NodeOk(nodes, info, home, root, root);
    assert ChildOk(nodes, info, before, i);
    assert nodes[before].children[i] != root && nodes[before].children[i] != child;
  }
}
