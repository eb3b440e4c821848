/** The fanout tree: which of its nodes are used, and how the used ones divide the children of a model node. */
module FanoutTree {
  datatype FTNode = FTNode(level: nat, id: nat, cost: real, numKeys: nat, use: bool)

  type Tree = seq<seq<FTNode>>

  /** `1 << k`. */
  function Pow2(k: nat): (p: nat)
    ensures p > 0
  {
    if k == 0 then 1 else 2 * Pow2(k - 1)
  }

  /** `i << k`. */
  function Shifted(i: nat, k: nat): (r: nat) {
    if k == 0 then i else 2 * Shifted(i, k - 1)
  }

  /** The ancestor `k` levels above position `x`. */
  function Up(x: nat, k: nat): (r: nat) {
    if k == 0 then x else Up(x, k - 1) / 2
  }

  lemma {:induction false} UpBound(x: nat, level: nat, k: nat)
    requires x < Pow2(level + k)
    ensures Up(x, k) < Pow2(level)
    decreases k
  {
    if k > 0 { UpBound(x, level + 1, k - 1); }
  }

  /** A position lies below a node exactly when it is in the run of positions of the node. */
  lemma {:induction false} UpIsRun(x: nat, i: nat, k: nat)
    ensures Up(x, k) == i <==> Shifted(i, k) <= x < Shifted(i + 1, k)
    decreases k
  {
    if k > 0 {
      UpIsRun(x, 2 * i, k - 1);
      UpIsRun(x, 2 * i + 1, k - 1);
      ShiftedTwice(i, k);
      ShiftedTwice(i + 1, k);
      ShiftedGrows(2 * i, k - 1);
      ShiftedGrows(2 * i + 1, k - 1);
    }
  }

  lemma {:induction false} ShiftedTwice(i: nat, k: nat)
    requires k > 0
    ensures Shifted(i, k) == Shifted(2 * i, k - 1)
    decreases k
  {
    if k > 1 { ShiftedTwice(i, k - 1); }
  }

  lemma {:induction false} ShiftedGrows(i: nat, k: nat)
    ensures Shifted(i + 1, k) == Shifted(i, k) + Pow2(k)
  {
    if k > 0 { ShiftedGrows(i, k - 1); }
  }

  lemma {:induction false} ShiftedAgain(i: nat, k: nat, e: nat)
    ensures Shifted(Shifted(i, k), e) == Shifted(i, k + e)
    decreases e
  {
    if e > 0 { ShiftedAgain(i, k, e - 1); }
  }

  lemma {:induction false} ShiftedOne(k: nat)
    ensures Shifted(0, k) == 0 && Shifted(1, k) == Pow2(k)
  {
    if k > 0 { ShiftedOne(k - 1); }
  }

  /** The levels 0 to `depth` of a tree are complete. */
  ghost predicate Complete(tree: Tree, depth: nat) {
    && depth < |tree|
    && forall lv | 0 <= lv <= depth :: LevelOk(tree[lv], lv)
  }

  ghost predicate LevelOk(nodes: seq<FTNode>, lv: nat) {
    |nodes| == Pow2(lv) && forall i | 0 <= i < |nodes| :: nodes[i].level == lv && nodes[i].id == i
  }

  /** The node of level `lv` above position `x` is used. */
  ghost predicate UsedAbove(tree: Tree, depth: nat, x: nat, lv: nat) {
    lv <= depth && lv < |tree| && Up(x, depth - lv) < |tree[lv]| && tree[lv][Up(x, depth - lv)].use
  }

  ghost predicate CoveredOnce(tree: Tree, depth: nat, x: nat) {
    && (exists lv: nat :: UsedAbove(tree, depth, x, lv))
    && (forall lv: nat, lv': nat | UsedAbove(tree, depth, x, lv) && UsedAbove(tree, depth, x, lv') :: lv == lv')
  }

  /** The runs of the used nodes tile the positions of level `depth`. */
  ghost predicate Tiled(tree: Tree, depth: nat) {
    forall x | 0 <= x < Pow2(depth) :: CoveredOnce(tree, depth, x)
  }

  /** Using exactly one whole level is a tiling. */
  lemma WholeLevelTiles(tree: Tree, depth: nat)
    requires Complete(tree, depth)
    requires forall lv, i | 0 <= lv <= depth && 0 <= i < |tree[lv]| :: tree[lv][i].use <==> lv == depth
    ensures Tiled(tree, depth)
  {
    assert LevelOk(tree[depth], depth);
    forall x | 0 <= x < Pow2(depth) ensures CoveredOnce(tree, depth, x) {
      assert UsedAbove(tree, depth, x, depth);
    }
  }

  /** Nodes `2i` and `2i + 1` of a level give way to node `i` of the level above. */
  function Fused(tree: Tree, level: nat, i: nat): (t: Tree)
    requires 1 <= level < |tree| && 2 * i + 1 < |tree[level]| && i < |tree[level - 1]|
    ensures |t| == |tree|
  {
    tree[level := tree[level][2 * i := tree[level][2 * i].(use := false)][2 * i + 1 :=
        tree[level][2 * i + 1].(use := false)]]
        [level - 1 := tree[level - 1][i := tree[level - 1][i].(use := true)]]
  }

  lemma FuseKeepsTiling(tree: Tree, depth: nat, level: nat, i: nat)
    requires Complete(tree, depth) && Tiled(tree, depth) && 1 <= level <= depth
    requires 2 * i + 1 < |tree[level]| && i < |tree[level - 1]| && tree[level][2 * i].use && tree[level][2 * i + 1].use
    ensures Complete(Fused(tree, level, i), depth) && Tiled(Fused(tree, level, i), depth)
  {
    var t := Fused(tree, level, i);
    forall lv | 0 <= lv <= depth ensures LevelOk(t[lv], lv) { assert LevelOk(tree[lv], lv); }
    forall x | 0 <= x < Pow2(depth) ensures CoveredOnce(t, depth, x) {
      assert CoveredOnce(tree, depth, x);
      FuseAtPosition(tree, depth, level, i, x);
    }
  }

  lemma UpStep(x: nat, depth: nat, level: nat)
    requires 1 <= level <= depth
    ensures Up(x, depth - (level - 1)) == Up(x, depth - level) / 2
  {
  }

  lemma LevelSizes(tree: Tree, depth: nat, level: nat)
    requires Complete(tree, depth) && level <= depth
    ensures depth < |tree| && |tree[level]| == Pow2(level)
  {
    assert LevelOk(tree[level], level);
  }

  lemma FuseAtPosition(tree: Tree, depth: nat, level: nat, i: nat, x: nat)
    requires Complete(tree, depth) && CoveredOnce(tree, depth, x) && 1 <= level <= depth && x < Pow2(depth)
    requires 2 * i + 1 < |tree[level]| && i < |tree[level - 1]| && tree[level][2 * i].use && tree[level][2 * i + 1].use
    ensures CoveredOnce(Fused(tree, level, i), depth, x)
  {
    hide Up, Pow2, Complete;
    LevelSizes(tree, depth, level);
    var t := Fused(tree, level, i);
    var u := Up(x, depth - level);
    UpStep(x, depth, level);
    LevelSizes(tree, depth, level - 1);
    UpBound(x, level, depth - level);
    if u / 2 == i {
      assert UsedAbove(tree, depth, x, level);
      assert UsedAbove(t, depth, x, level - 1);
      forall lv | UsedAbove(t, depth, x, lv) ensures lv == level - 1 {
        assert lv != level - 1 && lv != level ==> UsedAbove(tree, depth, x, lv);
      }
    } else {
      forall lv ensures UsedAbove(t, depth, x, lv) == UsedAbove(tree, depth, x, lv) { }
      var lv :| UsedAbove(tree, depth, x, lv);
      assert UsedAbove(t, depth, x, lv);
    }
  }

  // ----- which siblings give way to their parent -----

  /** What a climb starts from: the tree, its deepest level, the number of all keys and the price of a node. */
  datatype Climb = Climb(tree: Tree, depth: nat, totalKeys: nat, nodeWeight: real)

  /** The parent has no keys, or the two siblings, weighted by their keys, cost as much as the parent once the price of
      a node is added. */
  ghost predicate WorthFusing(c: Climb, level: nat, i: nat)
    requires 1 <= level < |c.tree| && 2 * i + 1 < |c.tree[level]| && i < |c.tree[level - 1]|
  {
    var a, b, p := c.tree[level][2 * i], c.tree[level][2 * i + 1], c.tree[level - 1][i];
    p.numKeys == 0
    || a.cost * a.numKeys as real / p.numKeys as real + b.cost * b.numKeys as real / p.numKeys as real
       + c.nodeWeight * c.totalKeys as real / p.numKeys as real >= p.cost
  }

  /** Node `j` of a level is used when the climb comes to that level. */
  ghost predicate UsedAt(c: Climb, level: nat, j: nat)
    requires level <= c.depth < |c.tree|
    decreases c.depth - level, 0
  {
    j < |c.tree[level]| && (c.tree[level][j].use || (level < c.depth && Fuses(c, level + 1, j)))
  }

  /** Both siblings are used and it is worth to fuse them. */
  ghost predicate Fuses(c: Climb, level: nat, i: nat)
    requires 1 <= level <= c.depth < |c.tree|
    decreases c.depth - level, 1
  {
    && 2 * i + 1 < |c.tree[level]| && i < |c.tree[level - 1]|
    && UsedAt(c, level, 2 * i) && UsedAt(c, level, 2 * i + 1) && WorthFusing(c, level, i)
  }

  /** The climb comes to this level: on every deeper one it has fused something. */
  ghost predicate Reached(c: Climb, level: nat)
    requires level <= c.depth < |c.tree|
    decreases c.depth - level
  {
    level == c.depth || (Reached(c, level + 1) && SomeFuse(c, level + 1))
  }

  ghost predicate SomeFuse(c: Climb, level: nat)
    requires 1 <= level <= c.depth < |c.tree|
  {
    exists i: nat :: Fuses(c, level, i)
  }

  /** Node `j` of level `lv` is used after the climb: it was, or took the place of its children, and has not given way
      to its own parent. */
  ghost predicate UsedAfter(c: Climb, lv: nat, j: nat)
    requires lv <= c.depth < |c.tree| && j < |c.tree[lv]|
  {
    && (c.tree[lv][j].use || (lv < c.depth && Reached(c, lv + 1) && Fuses(c, lv + 1, j)))
    && !(lv >= 1 && Reached(c, lv) && Fuses(c, lv, j / 2))
  }

  ghost predicate NodeAfter(c: Climb, tree: Tree, lv: nat, j: nat)
    requires c.depth < |c.tree| == |tree|
  {
    lv <= c.depth && j < |c.tree[lv]| ==>
      j < |tree[lv]| && tree[lv][j] == c.tree[lv][j].(use := UsedAfter(c, lv, j))
  }

  /** What fusing the pair saves for each of `numKeys` keys. */
  ghost function Gain(c: Climb, numKeys: nat, level: nat, i: nat): (g: real)
    requires 1 <= level <= c.depth < |c.tree| && numKeys > 0
  {
    if !Fuses(c, level, i) then 0.0
    else
      var a, b, p := c.tree[level][2 * i], c.tree[level][2 * i + 1], c.tree[level - 1][i];
      if p.numKeys == 0 then c.nodeWeight * c.totalKeys as real / numKeys as real
      else
        var saving := a.cost * a.numKeys as real / p.numKeys as real + b.cost * b.numKeys as real / p.numKeys as real
                      - p.cost + c.nodeWeight * c.totalKeys as real / p.numKeys as real;
        saving * p.numKeys as real / numKeys as real
  }

  ghost function LevelGain(c: Climb, numKeys: nat, level: nat, n: nat): (g: real)
    requires 1 <= level <= c.depth < |c.tree| && numKeys > 0
  {
    if n == 0 then 0.0 else LevelGain(c, numKeys, level, n - 1) + Gain(c, numKeys, level, n - 1)
  }

  /** The gains on all levels above `level` that the climb comes to. */
  ghost function ClimbGain(c: Climb, numKeys: nat, level: nat): (g: real)
    requires level <= c.depth < |c.tree| && numKeys > 0
    decreases c.depth - level
  {
    if level == c.depth then 0.0
    else
      ClimbGain(c, numKeys, level + 1)
      + if Reached(c, level + 1) then LevelGain(c, numKeys, level + 1, |c.tree[level + 1]| / 2) else 0.0
  }

  /** The use of a node while the climb is at `level` and has looked at `n` pairs there. */
  ghost predicate UseNow(c: Climb, level: nat, n: nat, lv: nat, j: nat)
    requires level <= c.depth < |c.tree| && lv <= c.depth && j < |c.tree[lv]|
  {
    if lv > level then UsedAfter(c, lv, j)
    else if lv == level then UsedAt(c, level, j) && !(level >= 1 && j / 2 < n && Fuses(c, level, j / 2))
    else c.tree[lv][j].use || (lv == level - 1 && j < n && Fuses(c, level, j))
  }

  ghost predicate NodeNow(c: Climb, tree: Tree, level: nat, n: nat, lv: nat, j: nat)
    requires level <= c.depth < |c.tree| == |tree|
  {
    lv <= c.depth && j < |c.tree[lv]| ==>
      j < |tree[lv]| && tree[lv][j] == c.tree[lv][j].(use := UseNow(c, level, n, lv, j))
  }

  ghost predicate Climbing(c: Climb, tree: Tree, level: nat, n: nat) {
    && level <= c.depth < |c.tree| == |tree| && Reached(c, level)
    && forall lv: nat, j: nat :: NodeNow(c, tree, level, n, lv, j)
  }

  lemma StartClimb(c: Climb)
    requires c.depth < |c.tree|
    ensures Climbing(c, c.tree, c.depth, 0)
  {
    hide WorthFusing;
  }

  /** The nodes of the pair are as the climb found them, but for their use. */
  lemma PairNow(c: Climb, tree: Tree, level: nat, n: nat)
    requires Climbing(c, tree, level, n) && Complete(c.tree, c.depth) && Complete(tree, c.depth)
    requires 1 <= level && n < |c.tree[level]| / 2
    ensures |tree[level]| == |c.tree[level]| == 2 * |c.tree[level - 1]| && |tree[level - 1]| == |c.tree[level - 1]|
    ensures tree[level][2 * n] == c.tree[level][2 * n].(use := UsedAt(c, level, 2 * n))
    ensures tree[level][2 * n + 1] == c.tree[level][2 * n + 1].(use := UsedAt(c, level, 2 * n + 1))
    ensures tree[level - 1][n].(use := true) == c.tree[level - 1][n].(use := true)
  {
    hide WorthFusing, Fuses, UsedAt;
    assert LevelOk(c.tree[level], level) && LevelOk(c.tree[level - 1], level - 1);
    assert LevelOk(tree[level], level) && LevelOk(tree[level - 1], level - 1);
    assert NodeNow(c, tree, level, n, level, 2 * n) && NodeNow(c, tree, level, n, level, 2 * n + 1);
    assert NodeNow(c, tree, level, n, level - 1, n);
  }

  /** Looking at one more pair. */
  lemma OnePair(c: Climb, tree: Tree, level: nat, n: nat, tree': Tree)
    requires Climbing(c, tree, level, n) && Complete(c.tree, c.depth) && Complete(tree, c.depth)
    requires 1 <= level && n < |c.tree[level]| / 2
    requires 2 * n + 1 < |tree[level]| && n < |tree[level - 1]|
    requires tree' == if Fuses(c, level, n) then Fused(tree, level, n) else tree
    ensures Climbing(c, tree', level, n + 1)
  {
    hide WorthFusing, Fuses, UsedAt, UsedAfter;
    PairNow(c, tree, level, n);
    var m := n + 1;
    forall lv: nat, j: nat ensures NodeNow(c, tree', level, m, lv, j) {
      assert NodeNow(c, tree, level, n, lv, j);
    }
  }

  /** A level on which something was fused leads to the next one. */
  lemma ClimbOn(c: Climb, tree: Tree, level: nat, n: nat)
    requires Climbing(c, tree, level, n) && 1 <= level && n == |c.tree[level]| / 2 && Complete(c.tree, c.depth)
    requires SomeFuse(c, level)
    ensures Climbing(c, tree, level - 1, 0)
  {
    hide WorthFusing, Fuses;
    assert LevelOk(c.tree[level], level) && LevelOk(c.tree[level - 1], level - 1);
    var up := level - 1;
    forall lv: nat, j: nat ensures NodeNow(c, tree, up, 0, lv, j) {
      assert NodeNow(c, tree, level, n, lv, j);
      if lv == level && j < |c.tree[lv]| { PairOfNode(c, level, j); }
    }
  }

  lemma PairOfNode(c: Climb, level: nat, j: nat)
    requires Complete(c.tree, c.depth) && 1 <= level <= c.depth && j < |c.tree[level]|
    ensures j / 2 < |c.tree[level]| / 2
  {
    assert LevelOk(c.tree[level], level);
    assert Pow2(level) == 2 * Pow2(level - 1);
  }

  /** Above a level without a fusion nothing is reached. */
  lemma {:induction false} NothingAbove(c: Climb, level: nat, lv: nat)
    requires lv < level <= c.depth < |c.tree| && !SomeFuse(c, level)
    ensures !Reached(c, lv)
    decreases level - lv
  {
    hide Fuses;
    if lv + 1 < level { NothingAbove(c, level, lv + 1); }
  }

  /** The climb ends at the top, or where nothing was fused. */
  lemma EndClimb(c: Climb, tree: Tree, level: nat, n: nat)
    requires Climbing(c, tree, level, n) && Complete(c.tree, c.depth)
    requires level == 0 || (n == |c.tree[level]| / 2 && !SomeFuse(c, level))
    ensures forall lv: nat, j: nat :: NodeAfter(c, tree, lv, j)
  {
    hide WorthFusing, Fuses;
    forall lv: nat, j: nat ensures NodeAfter(c, tree, lv, j) {
      assert NodeNow(c, tree, level, n, lv, j);
      if lv <= c.depth && j < |c.tree[lv]| { UseEnds(c, level, n, lv, j); }
    }
  }

  lemma UseEnds(c: Climb, level: nat, n: nat, lv: nat, j: nat)
    requires level <= c.depth < |c.tree| && Complete(c.tree, c.depth) && Reached(c, level)
    requires level == 0 || (n == |c.tree[level]| / 2 && !SomeFuse(c, level))
    requires lv <= c.depth && j < |c.tree[lv]|
    ensures UseNow(c, level, n, lv, j) <==> UsedAfter(c, lv, j)
  {
    hide WorthFusing, Fuses, Complete;
    if lv == level {
      assert level >= 1 ==> !Fuses(c, level, j / 2);
      assert level < c.depth ==> Reached(c, level + 1);
    } else if lv < level {
      NothingAbove(c, level, lv);
      if lv + 1 < level { NothingAbove(c, level, lv + 1); } else { assert !Fuses(c, level, j); }
    }
  }

  lemma {:induction false} NoGainAbove(c: Climb, numKeys: nat, level: nat, lv: nat)
    requires lv <= level <= c.depth < |c.tree| && numKeys > 0
    requires forall l: nat | lv < l <= level :: !Reached(c, l) || LevelGain(c, numKeys, l, |c.tree[l]| / 2) == 0.0
    ensures ClimbGain(c, numKeys, lv) == ClimbGain(c, numKeys, level)
    decreases level - lv
  {
    if lv < level { NoGainAbove(c, numKeys, level, lv + 1); }
  }

  lemma {:induction false} NoGain(c: Climb, numKeys: nat, level: nat, n: nat)
    requires 1 <= level <= c.depth < |c.tree| && numKeys > 0 && !SomeFuse(c, level)
    ensures LevelGain(c, numKeys, level, n) == 0.0
  {
    hide Fuses;
    if n > 0 { NoGain(c, numKeys, level, n - 1); }
  }

  /** `merge_nodes_upwards`: on every level that the climb comes to, a pair of used siblings gives way to its parent
      exactly if that is worth it; the climb stops at the first level without such a pair, and the cost goes down by
      what the pairs saved. Whatever the costs, the used nodes still tile the positions. */
  method MergeNodesUpwards(tree0: Tree, depth: nat, bestCost0: real, numKeys: nat, totalKeys: nat, nodeWeight: real)
      returns (tree: Tree, bestCost: real)
    requires Complete(tree0, depth) && Tiled(tree0, depth) && numKeys > 0
    ensures Complete(tree, depth) && Tiled(tree, depth) && |tree| == |tree0|
    ensures var c := Climb(tree0, depth, totalKeys, nodeWeight);
      && (forall lv: nat, j: nat :: NodeAfter(c, tree, lv, j))
      && bestCost == bestCost0 - ClimbGain(c, numKeys, 0)
  {
    hide Tiled, Climbing, Fuses, UsedAfter, Complete;
    ghost var c := Climb(tree0, depth, totalKeys, nodeWeight);
    LevelSizes(tree0, depth, depth);
    StartClimb(c);
    tree, bestCost := tree0, bestCost0;
    var level := depth;
    while level >= 1
      invariant 0 <= level <= depth < |tree| == |tree0| && Complete(tree, depth) && Tiled(tree, depth)
      invariant Climbing(c, tree, level, 0) && bestCost == bestCost0 - ClimbGain(c, numKeys, level)
    {
      var merged;
      tree, bestCost, merged := MergeLevel(c, tree, level, bestCost, numKeys, totalKeys, nodeWeight);
      if !merged {
        EndClimb(c, tree, level, |tree0[level]| / 2);
        GainsEnd(c, numKeys, level);
        return;
      }
      ReachedOf(c, tree, level, |tree0[level]| / 2);
      ClimbOn(c, tree, level, |tree0[level]| / 2);
      level := level - 1;
    }
    EndClimb(c, tree, 0, 0);
  }

  lemma ReachedOf(c: Climb, tree: Tree, level: nat, n: nat)
    requires Climbing(c, tree, level, n)
    ensures Reached(c, level)
  {
  }

  lemma GainsEnd(c: Climb, numKeys: nat, level: nat)
    requires 1 <= level <= c.depth < |c.tree| && numKeys > 0 && !SomeFuse(c, level)
    ensures ClimbGain(c, numKeys, 0) == ClimbGain(c, numKeys, level)
    ensures LevelGain(c, numKeys, level, |c.tree[level]| / 2) == 0.0
  {
    hide Fuses, LevelGain, ClimbGain;
    NoGain(c, numKeys, level, |c.tree[level]| / 2);
    forall l: nat | 0 < l <= level ensures !Reached(c, l) || LevelGain(c, numKeys, l, |c.tree[l]| / 2) == 0.0 {
      if l < level { NothingAbove(c, level, l); }
    }
    NoGainAbove(c, numKeys, level, 0);
  }

  /** The loop over the pairs of one level. */
  method MergeLevel(ghost c: Climb, tree1: Tree, level: nat, cost1: real, numKeys: nat, totalKeys: nat,
      nodeWeight: real)
      returns (tree: Tree, bestCost: real, merged: bool)
    requires Complete(c.tree, c.depth) && Complete(tree1, c.depth) && Tiled(tree1, c.depth) && numKeys > 0
    requires 1 <= level <= c.depth && Climbing(c, tree1, level, 0)
    requires c.totalKeys == totalKeys && c.nodeWeight == nodeWeight
    ensures |tree| == |tree1| && Complete(tree, c.depth) && Tiled(tree, c.depth)
    ensures Climbing(c, tree, level, |c.tree[level]| / 2)
    ensures merged <==> SomeFuse(c, level)
    ensures bestCost == cost1 - LevelGain(c, numKeys, level, |c.tree[level]| / 2)
  {
    hide Tiled, Climbing, Fuses, UsedAt, Complete, Gain;
    LevelSizes(c.tree, c.depth, level);
    LevelSizes(tree1, c.depth, level);
    tree, bestCost, merged := tree1, cost1, false;
    var fanout := Pow2(level);
    for i := 0 to fanout / 2
      invariant c.depth < |tree| == |tree1| && Complete(tree, c.depth) && Tiled(tree, c.depth)
      invariant Climbing(c, tree, level, i)
      invariant merged ==> SomeFuse(c, level)
      invariant !merged ==> forall j: nat :: j < i ==> !Fuses(c, level, j)
      invariant bestCost == cost1 - LevelGain(c, numKeys, level, i)
    {
      var fused;
      tree, bestCost, fused := MergePair(c, tree, level, i, bestCost, numKeys, totalKeys, nodeWeight);
      OneMoreGain(c, numKeys, level, i);
      if fused { PairIsSome(c, level, i); }
      merged := merged || fused;
    }
    if !merged { NoPairFuses(c, level); }
  }

  /** One pair of siblings. */
  method MergePair(ghost c: Climb, tree1: Tree, level: nat, i: nat, cost1: real, numKeys: nat, totalKeys: nat,
      nodeWeight: real)
      returns (tree: Tree, bestCost: real, fused: bool)
    requires Complete(c.tree, c.depth) && Complete(tree1, c.depth) && Tiled(tree1, c.depth) && numKeys > 0
    requires 1 <= level <= c.depth && i < |c.tree[level]| / 2 && Climbing(c, tree1, level, i)
    requires c.totalKeys == totalKeys && c.nodeWeight == nodeWeight
    ensures |tree| == |tree1| && Complete(tree, c.depth) && Tiled(tree, c.depth)
    ensures Climbing(c, tree, level, i + 1)
    ensures fused <==> Fuses(c, level, i)
    ensures bestCost == cost1 - Gain(c, numKeys, level, i)
  {
    hide Tiled, Climbing, Fuses, UsedAt, Complete, WorthFusing, Gain, Fused;
    LevelSizes(c.tree, c.depth, level);
    LevelSizes(tree1, c.depth, level);
    LevelSizes(tree1, c.depth, level - 1);
    PairNow(c, tree1, level, i);
    FusesHere(c, level, i);
    tree, bestCost, fused := tree1, cost1, false;
    if tree[level][2 * i].use && tree[level][2 * i + 1].use {
      var nodeKeys := tree[level - 1][i].numKeys;
      if nodeKeys == 0 {
        NoKeysDecides(c, numKeys, level, i);
        FuseKeepsTiling(tree, c.depth, level, i);
        tree, fused := Fused(tree, level, i), true;
        bestCost := bestCost - nodeWeight * totalKeys as real / numKeys as real;
      } else {
        var saving := tree[level][2 * i].cost * tree[level][2 * i].numKeys as real / nodeKeys as real
                      + tree[level][2 * i + 1].cost * tree[level][2 * i + 1].numKeys as real / nodeKeys as real
                      - tree[level - 1][i].cost + nodeWeight * totalKeys as real / nodeKeys as real;
        SavingDecides(c, numKeys, level, i, saving);
        if saving >= 0.0 {
          FuseKeepsTiling(tree, c.depth, level, i);
          tree, fused := Fused(tree, level, i), true;
          bestCost := bestCost - saving * nodeKeys as real / numKeys as real;
        }
      }
    }
    NoGainUnfused(c, numKeys, level, i);
    OnePair(c, tree1, level, i, tree);
  }

  lemma NoGainUnfused(c: Climb, numKeys: nat, level: nat, i: nat)
    requires 1 <= level <= c.depth < |c.tree| && numKeys > 0
    ensures !Fuses(c, level, i) ==> Gain(c, numKeys, level, i) == 0.0
  {
    hide Fuses;
  }

  lemma FusesHere(c: Climb, level: nat, i: nat)
    requires 1 <= level <= c.depth < |c.tree| && 2 * i + 1 < |c.tree[level]| && i < |c.tree[level - 1]|
    ensures Fuses(c, level, i) <==> UsedAt(c, level, 2 * i) && UsedAt(c, level, 2 * i + 1) && WorthFusing(c, level, i)
  {
  }

  lemma PairIsSome(c: Climb, level: nat, i: nat)
    requires 1 <= level <= c.depth < |c.tree| && Fuses(c, level, i)
    ensures SomeFuse(c, level)
  {
  }

  lemma NoPairFuses(c: Climb, level: nat)
    requires 1 <= level <= c.depth < |c.tree|
    requires forall j: nat :: j < |c.tree[level]| / 2 ==> !Fuses(c, level, j)
    ensures !SomeFuse(c, level)
  {
    forall i: nat ensures !Fuses(c, level, i) {
      if Fuses(c, level, i) { OnlyPairsFuse(c, level, i); }
    }
  }

  lemma OnlyPairsFuse(c: Climb, level: nat, i: nat)
    requires 1 <= level <= c.depth < |c.tree| && Fuses(c, level, i)
    ensures i < |c.tree[level]| / 2
  {
  }

  lemma OneMoreGain(c: Climb, numKeys: nat, level: nat, n: nat)
    requires 1 <= level <= c.depth < |c.tree| && numKeys > 0
    ensures LevelGain(c, numKeys, level, n + 1) == LevelGain(c, numKeys, level, n) + Gain(c, numKeys, level, n)
  {
    hide Gain;
  }

  /** The computed saving decides whether a used pair fuses, and gives the gain. */
  lemma SavingDecides(c: Climb, numKeys: nat, level: nat, i: nat, saving: real)
    requires 1 <= level <= c.depth < |c.tree| && numKeys > 0
    requires 2 * i + 1 < |c.tree[level]| && i < |c.tree[level - 1]| && c.tree[level - 1][i].numKeys > 0
    requires var a, b, p := c.tree[level][2 * i], c.tree[level][2 * i + 1], c.tree[level - 1][i];
             saving == a.cost * a.numKeys as real / p.numKeys as real + b.cost * b.numKeys as real / p.numKeys as real
                       - p.cost + c.nodeWeight * c.totalKeys as real / p.numKeys as real
    ensures WorthFusing(c, level, i) <==> saving >= 0.0
    ensures Gain(c, numKeys, level, i) == if Fuses(c, level, i)
      then saving * c.tree[level - 1][i].numKeys as real / numKeys as real else 0.0
  {
    hide Fuses;
  }

  lemma NoKeysDecides(c: Climb, numKeys: nat, level: nat, i: nat)
    requires 1 <= level <= c.depth < |c.tree| && numKeys > 0
    requires 2 * i + 1 < |c.tree[level]| && i < |c.tree[level - 1]| && c.tree[level - 1][i].numKeys == 0
    ensures WorthFusing(c, level, i)
    ensures Gain(c, numKeys, level, i) ==
      if Fuses(c, level, i) then c.nodeWeight * c.totalKeys as real / numKeys as real else 0.0
  {
    hide Fuses;
  }

  // ----- the used nodes from left to right -----

  function Start(n: FTNode, depth: nat): (x: nat) {
    if n.level <= depth then Shifted(n.id, depth - n.level) else 0
  }

  function End(n: FTNode, depth: nat): (x: nat) {
    if n.level <= depth then Shifted(n.id + 1, depth - n.level) else 0
  }

  /** A used node of the tree. */
  ghost predicate InUse(tree: Tree, depth: nat, n: FTNode) {
    n.level <= depth < |tree| && n.id < |tree[n.level]| && tree[n.level][n.id] == n && n.use
  }

  /** The list holds exactly the used nodes of levels below `lv`, and of level `lv` those below `i`, each once. */
  ghost predicate Collected(tree: Tree, depth: nat, out: seq<FTNode>, lv: nat, i: nat) {
    && (forall j | 0 <= j < |out| ::
         InUse(tree, depth, out[j]) && (out[j].level < lv || (out[j].level == lv && out[j].id < i)))
    && (forall l, k | 0 <= l <= depth && l < |tree| && 0 <= k < |tree[l]| && tree[l][k].use &&
         (l < lv || (l == lv && k < i)) :: tree[l][k] in out)
    && (forall j, k | 0 <= j < k < |out| :: out[j] != out[k])
  }

  /** The loops of `collect_used_nodes`. */
  method CollectUsed(tree: Tree, depth: nat) returns (out: seq<FTNode>)
    requires Complete(tree, depth)
    ensures Collected(tree, depth, out, depth + 1, 0)
  {
    out := [];
    for lv := 0 to depth + 1
      invariant Collected(tree, depth, out, lv, 0)
    {
      assert LevelOk(tree[lv], lv);
      var i := 0;
      while i < |tree[lv]|
        invariant 0 <= i <= |tree[lv]| && Collected(tree, depth, out, lv, i)
      {
        if tree[lv][i].use {
          CollectOne(tree, depth, out, lv, i);
          out := out + [tree[lv][i]];
        }
        i := i + 1;
      }
      CollectLevel(tree, depth, out, lv);
    }
  }

  lemma CollectOne(tree: Tree, depth: nat, out: seq<FTNode>, lv: nat, i: nat)
    requires Complete(tree, depth) && lv <= depth && i < |tree[lv]| && tree[lv][i].use
    requires Collected(tree, depth, out, lv, i)
    ensures Collected(tree, depth, out + [tree[lv][i]], lv, i + 1)
  {
    assert LevelOk(tree[lv], lv);
    var o := out + [tree[lv][i]];
    assert o[|out|] == tree[lv][i];
  }

  lemma CollectLevel(tree: Tree, depth: nat, out: seq<FTNode>, lv: nat)
    requires Complete(tree, depth) && lv <= depth && Collected(tree, depth, out, lv, |tree[lv]|)
    ensures Collected(tree, depth, out, lv + 1, 0)
  {
  }

  /** Sorted by their first position. */
  ghost predicate Ascending(nodes: seq<FTNode>, depth: nat) {
    forall i, j | 0 <= i < j < |nodes| :: Start(nodes[i], depth) <= Start(nodes[j], depth)
  }

  /** The sort of `collect_used_nodes`, here by insertion. */
  method SortByStart(nodes: seq<FTNode>, depth: nat) returns (out: seq<FTNode>)
    ensures multiset(out) == multiset(nodes) && Ascending(out, depth)
  {
    hide Start, Ascending;
    NothingAscends(depth);
    out := [];
    for n := 0 to |nodes|
      invariant multiset(out) == multiset(nodes[..n]) && Ascending(out, depth)
    {
      out := PutByStart(out, nodes[n], depth);
      assert nodes[..n + 1] == nodes[..n] + [nodes[n]];
    }
    assert nodes[..|nodes|] == nodes;
  }

  lemma NothingAscends(depth: nat)
    ensures Ascending([], depth)
  {
  }

  method PutByStart(sorted: seq<FTNode>, n: FTNode, depth: nat) returns (out: seq<FTNode>)
    requires Ascending(sorted, depth)
    ensures multiset(out) == multiset(sorted) + multiset{n} && Ascending(out, depth)
  {
    hide Start, Ascending;
    var at := |sorted|;
    while at > 0 && Start(n, depth) < Start(sorted[at - 1], depth)
      invariant 0 <= at <= |sorted|
      invariant forall j | at <= j < |sorted| :: Start(n, depth) < Start(sorted[j], depth)
    {
      at := at - 1;
    }
    PutAscending(sorted, n, at, depth);
    PutMultiset(sorted, n, at);
    out := sorted[..at] + [n] + sorted[at..];
  }

  lemma PutMultiset(out: seq<FTNode>, n: FTNode, at: nat)
    requires at <= |out|
    ensures multiset(out[..at] + [n] + out[at..]) == multiset(out) + multiset{n}
  {
    assert out == out[..at] + out[at..];
  }

  lemma PutAscending(out: seq<FTNode>, n: FTNode, at: nat, depth: nat)
    requires Ascending(out, depth) && at <= |out|
    requires at > 0 ==> Start(out[at - 1], depth) <= Start(n, depth)
    requires forall j | at <= j < |out| :: Start(n, depth) < Start(out[j], depth)
    ensures Ascending(out[..at] + [n] + out[at..], depth)
  {
    hide Start;
    var o := out[..at] + [n] + out[at..];
    assert forall j | 0 <= j < |o| :: o[j] == if j < at then out[j] else if j == at then n else out[j - 1];
    forall i, j | 0 <= i < j < |o| ensures Start(o[i], depth) <= Start(o[j], depth) {
      assert i < at ==> Start(out[i], depth) <= Start(out[at - 1], depth);
    }
  }

  /** The nodes follow each other without gap or overlap, from position 0 to the end of the level. */
  ghost predicate Consecutive(nodes: seq<FTNode>, depth: nat) {
    && |nodes| > 0 && Start(nodes[0], depth) == 0 && End(nodes[|nodes| - 1], depth) == Pow2(depth)
    && forall j | 0 <= j < |nodes| - 1 :: End(nodes[j], depth) == Start(nodes[j + 1], depth)
  }

  /** Where a used node is found by the positions below it. */
  lemma InRun(tree: Tree, depth: nat, n: FTNode, x: nat)
    requires Complete(tree, depth) && InUse(tree, depth, n)
    ensures Start(n, depth) <= x < End(n, depth) <==> Up(x, depth - n.level) == n.id
    ensures Start(n, depth) <= x < End(n, depth) ==> UsedAbove(tree, depth, x, n.level)
    ensures Start(n, depth) < End(n, depth) <= Pow2(depth)
  {
    UpIsRun(x, n.id, depth - n.level);
    ShiftedGrows(n.id, depth - n.level);
    assert LevelOk(tree[n.level], n.level);
    RunEnds(n.id, n.level, depth - n.level);
  }

  lemma {:induction false} RunEnds(i: nat, level: nat, k: nat)
    requires i < Pow2(level)
    ensures Shifted(i + 1, k) <= Pow2(level + k)
  {
    if k > 0 { RunEnds(i, level, k - 1); }
  }

  /** Two used nodes with a common position are the same. */
  lemma OneOwner(tree: Tree, depth: nat, n: FTNode, m: FTNode, x: nat)
    requires Complete(tree, depth) && Tiled(tree, depth) && InUse(tree, depth, n) && InUse(tree, depth, m)
    requires Start(n, depth) <= x < End(n, depth) && Start(m, depth) <= x < End(m, depth)
    ensures n == m
  {
    InRun(tree, depth, n, x);
    InRun(tree, depth, m, x);
    assert CoveredOnce(tree, depth, x);
  }

  /** Every position has an owner in the list. */
  lemma HasOwner(tree: Tree, depth: nat, out: seq<FTNode>, x: nat) returns (j: nat)
    requires Complete(tree, depth) && Tiled(tree, depth) && Collected(tree, depth, out, depth + 1, 0) && x < Pow2(depth)
    ensures j < |out| && Start(out[j], depth) <= x < End(out[j], depth)
  {
    assert CoveredOnce(tree, depth, x);
    var lv: nat :| UsedAbove(tree, depth, x, lv);
    assert LevelOk(tree[lv], lv);
    var n := tree[lv][Up(x, depth - lv)];
    assert n in out;
    j :| 0 <= j < |out| && out[j] == n;
    InRun(tree, depth, n, x);
  }

  /** The sorted used nodes of a tiling are consecutive. */
  lemma SortedTilingIsConsecutive(tree: Tree, depth: nat, out: seq<FTNode>)
    requires Complete(tree, depth) && Tiled(tree, depth) && Collected(tree, depth, out, depth + 1, 0)
    requires Ascending(out, depth)
    ensures Consecutive(out, depth)
  {
    hide Tiled, Complete, Start, End, UsedAbove, Pow2;
    Pow2Positive(depth);
    var j := HasOwner(tree, depth, out, 0);
    InRun(tree, depth, out[0], 0);
    forall i | 0 <= i < |out| - 1 ensures End(out[i], depth) == Start(out[i + 1], depth) {
      NextStarts(tree, depth, out, i);
    }
    LastEnds(tree, depth, out);
  }

  lemma Pow2Positive(k: nat)
    ensures Pow2(k) > 0
  {
  }

  lemma NextStarts(tree: Tree, depth: nat, out: seq<FTNode>, i: nat)
    requires Complete(tree, depth) && Tiled(tree, depth) && Collected(tree, depth, out, depth + 1, 0)
    requires Ascending(out, depth)
    requires i < |out| - 1
    ensures End(out[i], depth) == Start(out[i + 1], depth)
  {
    hide Tiled, Complete, Start, End, UsedAbove, Pow2;
    var a, b := out[i], out[i + 1];
    InRun(tree, depth, a, 0);
    InRun(tree, depth, b, 0);
    if Start(b, depth) < End(a, depth) {
      OneOwner(tree, depth, a, b, Start(b, depth));
    } else if End(a, depth) < Start(b, depth) {
      var x := End(a, depth);
      var j := HasOwner(tree, depth, out, x);
      if Start(out[j], depth) < x { OneOwner(tree, depth, a, out[j], x - 1); }
      NotBetween(out, depth, i, j);
    }
  }

  lemma NotBetween(out: seq<FTNode>, depth: nat, i: nat, j: nat)
    requires Ascending(out, depth) && i < |out| - 1 && j < |out| && Start(out[i], depth) < Start(out[j], depth)
    ensures Start(out[i + 1], depth) <= Start(out[j], depth)
  {
  }

  lemma LastEnds(tree: Tree, depth: nat, out: seq<FTNode>)
    requires Complete(tree, depth) && Tiled(tree, depth) && Collected(tree, depth, out, depth + 1, 0)
    requires Ascending(out, depth) && |out| > 0
    ensures End(out[|out| - 1], depth) == Pow2(depth)
  {
    hide Tiled, Complete, Start, End, UsedAbove, Pow2;
    var a := out[|out| - 1];
    InRun(tree, depth, a, 0);
    if End(a, depth) < Pow2(depth) {
      var x := End(a, depth);
      var j := HasOwner(tree, depth, out, x);
      if Start(out[j], depth) < x { OneOwner(tree, depth, a, out[j], x - 1); }
    }
  }

  /** The tree with exactly one level in use. */
  function UsingLevel(tree: Tree, depth: nat): (t: Tree)
    requires depth < |tree|
    ensures |t| == |tree|
  {
    tree[depth := seq(|tree[depth]|, i requires 0 <= i < |tree[depth]| => tree[depth][i].(use := true))]
  }

  /** Node `j` of level `lv` is in the list exactly if it is used after the climb. */
  ghost predicate ListedExactly(c: Climb, used: seq<FTNode>, lv: nat, j: nat)
    requires c.depth < |c.tree|
  {
    lv <= c.depth && j < |c.tree[lv]| ==> (c.tree[lv][j].(use := true) in used <==> UsedAfter(c, lv, j))
  }

  lemma ListIsUsed(c: Climb, tree: Tree, used: seq<FTNode>)
    requires c.depth < |c.tree| == |tree| && Complete(c.tree, c.depth) && Complete(tree, c.depth)
    requires forall lv: nat, j: nat :: NodeAfter(c, tree, lv, j)
    requires Collected(tree, c.depth, used, c.depth + 1, 0)
    ensures forall lv: nat, j: nat :: ListedExactly(c, used, lv, j)
  {
    hide UsedAfter;
    forall lv: nat, j: nat ensures ListedExactly(c, used, lv, j) {
      assert NodeAfter(c, tree, lv, j);
      if lv <= c.depth && j < |c.tree[lv]| {
        assert LevelOk(c.tree[lv], lv) && LevelOk(tree[lv], lv);
        if c.tree[lv][j].(use := true) in used {
          var x :| 0 <= x < |used| && used[x] == c.tree[lv][j].(use := true);
          assert InUse(tree, c.depth, used[x]);
        }
      }
    }
  }

  /** The end of `find_best_fanout_bottom_up`: one whole level is used, then merged upwards and collected. */
  method BestFanout(tree0: Tree, bestLevel: nat, bestCost: real, numKeys: nat, totalKeys: nat, nodeWeight: real)
      returns (used: seq<FTNode>, cost: real)
    requires Complete(tree0, bestLevel) && numKeys > 0
    requires forall lv, i | 0 <= lv <= bestLevel && 0 <= i < |tree0[lv]| :: !tree0[lv][i].use
    ensures Consecutive(used, bestLevel) && Fits(used, bestLevel)
    ensures var c := Climb(UsingLevel(tree0, bestLevel), bestLevel, totalKeys, nodeWeight);
      && (forall lv: nat, j: nat :: ListedExactly(c, used, lv, j))
      && cost == bestCost - ClimbGain(c, numKeys, 0)
  {
    hide Complete, Tiled, Collected, Consecutive, Ascending, UsedAfter;
    LevelSizes(tree0, bestLevel, bestLevel);
    var tree := UseLevel(tree0, bestLevel);
    ghost var c := Climb(tree, bestLevel, totalKeys, nodeWeight);
    tree, cost := MergeNodesUpwards(tree, bestLevel, bestCost, numKeys, totalKeys, nodeWeight);
    var found := CollectUsed(tree, bestLevel);
    used := SortByStart(found, bestLevel);
    SameCollection(tree, bestLevel, found, used);
    ListIsUsed(c, tree, used);
    SortedTilingIsConsecutive(tree, bestLevel, used);
    CollectedFits(tree, bestLevel, used);
  }

  /** No listed node lies below the level whose positions are divided. */
  predicate Fits(nodes: seq<FTNode>, depth: nat) {
    forall i | 0 <= i < |nodes| :: nodes[i].level <= depth
  }

  lemma CollectedFits(tree: Tree, depth: nat, out: seq<FTNode>)
    requires Collected(tree, depth, out, depth + 1, 0)
    ensures Fits(out, depth)
  {
  }

  method UseLevel(tree0: Tree, depth: nat) returns (tree: Tree)
    requires Complete(tree0, depth)
    requires forall lv, i | 0 <= lv <= depth && 0 <= i < |tree0[lv]| :: !tree0[lv][i].use
    ensures Complete(tree, depth) && Tiled(tree, depth) && tree == UsingLevel(tree0, depth)
  {
    hide Tiled;
    var nodes := tree0[depth];
    assert LevelOk(tree0[depth], depth);
    for i := 0 to |nodes|
      invariant LevelOk(nodes, depth)
      invariant |nodes| == |tree0[depth]| && forall j | i <= j < |nodes| :: nodes[j] == tree0[depth][j]
      invariant forall j | 0 <= j < i :: nodes[j] == tree0[depth][j].(use := true)
      invariant forall j | 0 <= j < i :: nodes[j].use
    {
      nodes := nodes[i := nodes[i].(use := true)];
    }
    assert nodes == UsingLevel(tree0, depth)[depth];
    tree := tree0[depth := nodes];
    forall lv | 0 <= lv <= depth ensures LevelOk(tree[lv], lv) { assert LevelOk(tree0[lv], lv); }
    WholeLevelTiles(tree, depth);
  }

  /** A permutation of a list without repetitions holds the same nodes, each once. */
  lemma SameCollection(tree: Tree, depth: nat, a: seq<FTNode>, b: seq<FTNode>)
    requires Collected(tree, depth, a, depth + 1, 0) && multiset(a) == multiset(b)
    ensures Collected(tree, depth, b, depth + 1, 0)
  {
    forall j | 0 <= j < |b| ensures b[j] in a { assert b[j] in multiset(b); assert b[j] in multiset(a); }
    forall n | n in a ensures n in b { assert n in multiset(a); assert n in multiset(b); }
    forall j, k | 0 <= j < k < |b| ensures b[j] != b[k] {
      OnceEach(a, b[j]);
      if b[j] == b[k] { TwiceCounted(b, j, k); }
    }
  }

  lemma {:induction false} OnceEach(a: seq<FTNode>, n: FTNode)
    requires forall j, k | 0 <= j < k < |a| :: a[j] != a[k]
    ensures multiset(a)[n] <= 1
  {
    if |a| > 0 {
      var t := a[1..];
      assert a == [a[0]] + t;
      OnceEach(t, n);
      if a[0] == n {
        assert n !in t;
        assert multiset(t)[n] == 0;
      }
    }
  }

  lemma TwiceCounted(b: seq<FTNode>, j: nat, k: nat)
    requires j < k < |b| && b[j] == b[k]
    ensures multiset(b)[b[j]] >= 2
  {
    assert b == b[..k] + [b[k]] + b[k + 1..];
    assert b[..k][j] == b[j];
    assert b[j] in multiset(b[..k]);
  }

  // ----- the loop that hands the children of a model node to the used nodes -----

  /**
   * The child-pointer loop of the split: each used node takes `1 << (depth - level + extra)` consecutive slots.
   * Every slot from `start` on is written once and in order, and slot `start + x` gets the owner of position `x`
   * of the level `extra` below the fanout tree.
   */
  method FillChildren(nodes: seq<FTNode>, depth: nat, extra: nat, start: nat, children: array<int>) returns (cur: nat)
    requires Consecutive(nodes, depth) && Fits(nodes, depth) && start + Pow2(depth + extra) <= children.Length
    modifies children
    ensures cur == start + Pow2(depth + extra)
    ensures forall i | start <= i < start + Pow2(depth + extra) :: OwnsSlot(nodes, depth, extra, children[i], i - start)
    ensures forall i | 0 <= i < children.Length && !(start <= i < start + Pow2(depth + extra)) ::
              children[i] == old(children[i])
  {
    hide Pow2, Shifted, Start, End;
    cur := start;
    var j := 0;
    FirstStart(nodes, depth, extra);
    while j < |nodes|
      invariant 0 <= j <= |nodes| && cur == start + RunStart(nodes, depth, extra, j)
      invariant cur <= start + Pow2(depth + extra)
      invariant forall i | 0 <= i < children.Length && !(start <= i < cur) :: children[i] == old(children[i])
      invariant forall i | start <= i < cur :: children[i] < j && InRunOf(nodes, depth, extra, children[i], i - start)
    {
      var repeats := Pow2(depth - nodes[j].level + extra);
      NextRun(nodes, depth, extra, j);
      ghost var from := cur;
      for i := cur to cur + repeats
        invariant forall k | 0 <= k < children.Length && !(from <= k < i) && !(start <= k < from) ::
                  children[k] == old(children[k])
        invariant forall k | start <= k < from ::
                  children[k] < j && InRunOf(nodes, depth, extra, children[k], k - start)
        invariant forall k | from <= k < i :: children[k] == j
      {
        children[i] := j;
      }
      cur := cur + repeats;
      j := j + 1;
    }
    LastRun(nodes, depth, extra);
    forall i | start <= i < start + Pow2(depth + extra) ensures OwnsSlot(nodes, depth, extra, children[i], i - start) {
      NextRun(nodes, depth, extra, children[i]);
    }
  }

  /** Node `j` is the one whose run, `extra` levels further down, holds slot `x`. */
  ghost predicate OwnsSlot(nodes: seq<FTNode>, depth: nat, extra: nat, j: int, x: int) {
    0 <= j < |nodes| && Shifted(Start(nodes[j], depth), extra) <= x < Shifted(End(nodes[j], depth), extra)
  }

  /** The first slot of node `j`, or the end of the slots. */
  ghost function RunStart(nodes: seq<FTNode>, depth: nat, extra: nat, j: nat): (x: nat)
    requires j <= |nodes|
  {
    if j < |nodes| then Shifted(Start(nodes[j], depth), extra) else Pow2(depth + extra)
  }

  ghost predicate InRunOf(nodes: seq<FTNode>, depth: nat, extra: nat, j: int, x: int) {
    0 <= j < |nodes| && RunStart(nodes, depth, extra, j) <= x < RunStart(nodes, depth, extra, j + 1)
  }

  lemma FirstStart(nodes: seq<FTNode>, depth: nat, extra: nat)
    requires Consecutive(nodes, depth)
    ensures RunStart(nodes, depth, extra, 0) == 0
  {
    ShiftedOne(extra);
  }

  lemma LastRun(nodes: seq<FTNode>, depth: nat, extra: nat)
    ensures RunStart(nodes, depth, extra, |nodes|) == Pow2(depth + extra)
  {
  }

  /** A node's slots end where the next node's slots begin. */
  lemma NextRun(nodes: seq<FTNode>, depth: nat, extra: nat, j: nat)
    requires Consecutive(nodes, depth) && Fits(nodes, depth) && j < |nodes|
    ensures RunStart(nodes, depth, extra, j) + Pow2(depth - nodes[j].level + extra) ==
              RunStart(nodes, depth, extra, j + 1)
    ensures RunStart(nodes, depth, extra, j + 1) == Shifted(End(nodes[j], depth), extra)
    ensures RunStart(nodes, depth, extra, j + 1) <= Pow2(depth + extra)
  {
    var n, k := nodes[j], depth - nodes[j].level;
    ShiftedAgain(n.id, k, extra);
    ShiftedAgain(n.id + 1, k, extra);
    ShiftedGrows(n.id, k + extra);
    ShiftedOne(depth);
    ShiftedAgain(1, depth, extra);
    ShiftedOne(depth + extra);
    EndsInside(nodes, depth, j);
    ShiftedOrder(End(nodes[j], depth), Pow2(depth), extra);
  }

  lemma {:induction false} EndsInside(nodes: seq<FTNode>, depth: nat, j: nat)
    requires Consecutive(nodes, depth) && j < |nodes|
    ensures End(nodes[j], depth) <= Pow2(depth)
    decreases |nodes| - j
  {
    if j < |nodes| - 1 {
      EndsInside(nodes, depth, j + 1);
      assert End(nodes[j], depth) == Start(nodes[j + 1], depth);
      if nodes[j + 1].level <= depth { ShiftedGrows(nodes[j + 1].id, depth - nodes[j + 1].level); }
    }
  }

  lemma {:induction false} ShiftedOrder(a: nat, b: nat, k: nat)
    requires a <= b
    ensures Shifted(a, k) <= Shifted(b, k)
  {
    if k > 0 { ShiftedOrder(a, b, k - 1); }
  }
}
