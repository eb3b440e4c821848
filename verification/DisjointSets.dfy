/** Union-find with path compression. */
module DisjointSets {
  import opened Hashing

  /** `uint32_t(-1)`: an element that has not been touched since the last reset. */
  const UNSET: nat := TWO_32 - 1

  datatype Pair = Pair(a: nat, b: nat)

  /** Consecutive elements of the path are merged pairs, in either direction. */
  predicate Path(pairs: seq<Pair>, path: seq<nat>) {
    forall i | 0 <= i < |path| - 1 :: Pair(path[i], path[i + 1]) in pairs || Pair(path[i + 1], path[i]) in pairs
  }

  /** `a` and `b` are connected by merged pairs. */
  ghost predicate Connected(pairs: seq<Pair>, a: nat, b: nat) {
    exists path: seq<nat> :: |path| > 0 && path[0] == a && path[|path| - 1] == b && Path(pairs, path)
  }

  lemma ConnectedSelf(pairs: seq<Pair>, a: nat)
    ensures Connected(pairs, a, a)
  {
    assert Path(pairs, [a]) && [a][0] == a;
  }

  lemma ConnectedStep(pairs: seq<Pair>, a: nat, b: nat, c: nat)
    requires Connected(pairs, a, b) && (Pair(b, c) in pairs || Pair(c, b) in pairs)
    ensures Connected(pairs, a, c)
  {
    var path: seq<nat> :| |path| > 0 && path[0] == a && path[|path| - 1] == b && Path(pairs, path);
    var longer := path + [c];
    assert longer[|longer| - 1] == c && longer[0] == a && Path(pairs, longer);
  }

  lemma {:induction false} ConnectedJoin(pairs: seq<Pair>, a: nat, path: seq<nat>)
    requires |path| > 0 && Path(pairs, path) && Connected(pairs, a, path[0])
    ensures Connected(pairs, a, path[|path| - 1])
    decreases |path|
  {
    if |path| > 1 {
      var n := |path| - 1;
      assert Path(pairs, path[..n]);
      ConnectedJoin(pairs, a, path[..n]);
      assert Pair(path[n - 1], path[n - 1 + 1]) in pairs || Pair(path[n - 1 + 1], path[n - 1]) in pairs;
      ConnectedStep(pairs, a, path[n - 1], path[n]);
    }
  }

  lemma ConnectedTwice(pairs: seq<Pair>, a: nat, b: nat, c: nat)
    requires Connected(pairs, a, b) && Connected(pairs, b, c)
    ensures Connected(pairs, a, c)
  {
    var path: seq<nat> :| |path| > 0 && path[0] == b && path[|path| - 1] == c && Path(pairs, path);
    ConnectedJoin(pairs, a, path);
  }

  lemma ConnectedBack(pairs: seq<Pair>, a: nat, b: nat)
    requires Connected(pairs, a, b)
    ensures Connected(pairs, b, a)
  {
    var path: seq<nat> :| |path| > 0 && path[0] == a && path[|path| - 1] == b && Path(pairs, path);
    var n := |path|;
    var back := seq(n, i requires 0 <= i < n => path[n - 1 - i]);
    assert back[0] == b && back[n - 1] == a;
    forall i | 0 <= i < |back| - 1 ensures Pair(back[i], back[i + 1]) in pairs || Pair(back[i + 1], back[i]) in pairs {
      var j := n - 2 - i;
      assert Pair(path[j], path[j + 1]) in pairs || Pair(path[j + 1], path[j]) in pairs;
    }
  }

  lemma ConnectedMore(pairs: seq<Pair>, p: Pair, a: nat, b: nat)
    requires Connected(pairs, a, b)
    ensures Connected(pairs + [p], a, b)
  {
    var path: seq<nat> :| |path| > 0 && path[0] == a && path[|path| - 1] == b && Path(pairs, path);
    assert Path(pairs + [p], path);
  }

  /** The class of each element by its root, and a rank that falls along the parents. */
  ghost predicate Forest(mem: seq<nat>, cls: seq<nat>, rank: seq<nat>) {
    && |cls| == |rank| == |mem| <= UNSET
    && forall i | 0 <= i < |mem| :: ElementOk(mem, cls, rank, i)
  }

  ghost predicate ElementOk(mem: seq<nat>, cls: seq<nat>, rank: seq<nat>, i: nat)
    requires i < |mem| == |cls| == |rank|
  {
    && cls[i] < |mem| && cls[cls[i]] == cls[i]
    && if mem[i] == UNSET || mem[i] == i then cls[i] == i
       else mem[i] < |mem| && cls[mem[i]] == cls[i] && rank[mem[i]] < rank[i] && cls[i] != i
  }

  /** Equal roots mean connected elements, and the other way round. */
  ghost predicate Classes(cls: seq<nat>, pairs: seq<Pair>) {
    && (forall x, y | 0 <= x < |cls| && 0 <= y < |cls| && cls[x] == cls[y] :: Connected(pairs, x, y))
    && (forall p | p in pairs :: p.a < |cls| && p.b < |cls| && cls[p.a] == cls[p.b])
  }

  lemma {:induction false} PathSameClass(cls: seq<nat>, pairs: seq<Pair>, path: seq<nat>)
    requires Classes(cls, pairs) && Path(pairs, path) && |path| > 0 && path[0] < |cls|
    ensures path[|path| - 1] < |cls| && cls[path[|path| - 1]] == cls[path[0]]
    decreases |path|
  {
    if |path| > 1 {
      var n := |path| - 1;
      PathSameClass(cls, pairs, path[..n]);
      assert Pair(path[n - 1], path[n - 1 + 1]) in pairs || Pair(path[n - 1 + 1], path[n - 1]) in pairs;
    }
  }

  /** Two elements are in one class exactly when merged pairs connect them. */
  lemma SameClassIffConnected(cls: seq<nat>, pairs: seq<Pair>, a: nat, b: nat)
    requires Classes(cls, pairs) && a < |cls| && b < |cls|
    ensures cls[a] == cls[b] <==> Connected(pairs, a, b)
  {
    if Connected(pairs, a, b) {
      var path: seq<nat> :| |path| > 0 && path[0] == a && path[|path| - 1] == b && Path(pairs, path);
      PathSameClass(cls, pairs, path);
    }
  }

  ghost function MergedClasses(cls: seq<nat>, ra: nat, rb: nat): (c: seq<nat>) {
    seq(|cls|, i requires 0 <= i < |cls| => if cls[i] == rb then ra else cls[i])
  }

  ghost function MergedRank(cls: seq<nat>, rank: seq<nat>, ra: nat, rb: nat): (r: seq<nat>)
    requires |rank| == |cls| && ra < |rank|
  {
    seq(|cls|, i requires 0 <= i < |cls| => if cls[i] == rb && ra != rb then rank[i] + rank[ra] + 1 else rank[i])
  }

  lemma MergeForest(mem: seq<nat>, cls: seq<nat>, rank: seq<nat>, ra: nat, rb: nat)
    requires Forest(mem, cls, rank) && ra < |mem| && rb < |mem| && cls[ra] == ra && cls[rb] == rb && mem[ra] == ra
    ensures Forest(mem[rb := ra], MergedClasses(cls, ra, rb), MergedRank(cls, rank, ra, rb))
  {
    var m, c, r := mem[rb := ra], MergedClasses(cls, ra, rb), MergedRank(cls, rank, ra, rb);
    forall i | 0 <= i < |m| ensures ElementOk(m, c, r, i) {
      assert ElementOk(mem, cls, rank, i) && ElementOk(mem, cls, rank, ra);
      if mem[i] < |mem| { assert ElementOk(mem, cls, rank, mem[i]); }
    }
  }

  lemma MergeClasses(cls: seq<nat>, pairs: seq<Pair>, a: nat, b: nat)
    requires Classes(cls, pairs) && a < |cls| && b < |cls|
    ensures Classes(MergedClasses(cls, cls[a], cls[b]), pairs + [Pair(a, b)])
  {
    hide Connected;
    var c, ps := MergedClasses(cls, cls[a], cls[b]), pairs + [Pair(a, b)];
    assert ps[|pairs|] == Pair(a, b);
    forall x, y | 0 <= x < |c| && 0 <= y < |c| && c[x] == c[y] ensures Connected(ps, x, y) {
      if cls[x] == cls[y] {
        ConnectedMore(pairs, Pair(a, b), x, y);
      } else if cls[x] == cls[a] {
        Bridge(cls, pairs, a, b, x, y);
      } else {
        Bridge(cls, pairs, a, b, y, x);
        ConnectedBack(ps, y, x);
      }
    }
    forall p | p in ps ensures p.a < |c| && p.b < |c| && c[p.a] == c[p.b] {
      assert p in pairs || p == Pair(a, b);
    }
  }

  lemma Bridge(cls: seq<nat>, pairs: seq<Pair>, a: nat, b: nat, x: nat, y: nat)
    requires Classes(cls, pairs) && a < |cls| && b < |cls| && x < |cls| && y < |cls| && cls[x] == cls[a]
    requires cls[y] == cls[b]
    ensures Connected(pairs + [Pair(a, b)], x, y)
  {
    hide Connected;
    var ps := pairs + [Pair(a, b)];
    ConnectedMore(pairs, Pair(a, b), x, a);
    ConnectedMore(pairs, Pair(a, b), b, y);
    assert ps[|pairs|] == Pair(a, b);
    ConnectedStep(ps, x, a, b);
    ConnectedTwice(ps, x, b, y);
  }

  class DisjointSet {
    var mem: seq<nat>
    ghost var cls: seq<nat>
    ghost var rank: seq<nat>
    /** The pairs merged since the last reset. */
    ghost var pairs: seq<Pair>

    ghost predicate Valid()
      reads this
    {
      Forest(mem, cls, rank) && Classes(cls, pairs)
    }

    constructor (capacity: nat)
      requires capacity <= UNSET
      ensures Valid() && |mem| == capacity && pairs == []
    {
      mem, pairs := seq(capacity, _ => UNSET), [];
      cls, rank := seq(capacity, i => i), seq(capacity, _ => 0);
      new;
      SingletonsOk(mem, cls, rank);
    }

    /** `representative`: the root of the class; compression changes no class. */
    method Representative(i: nat) returns (r: nat)
      requires Valid() && i < |mem|
      modifies this`mem
      ensures Valid() && |mem| == old(|mem|) && r == cls[i] && r < |mem| && mem[r] == r
      ensures forall j | 0 <= j < |mem| && old(mem[j]) == j :: mem[j] == j
      decreases rank[i]
    {
      hide Classes;
      assert ElementOk(mem, cls, rank, i);
      if mem[i] == UNSET {
        Compress(mem, cls, rank, i, i);
        mem := mem[i := i];
        r := i;
      } else if mem[i] != i {
        r := Representative(mem[i]);
        assert ElementOk(mem, cls, rank, i) && ElementOk(mem, cls, rank, r);
        RankAboveRoot(mem, cls, rank, i);
        Compress(mem, cls, rank, i, r);
        mem := mem[i := r];
      } else {
        r := i;
      }
    }

    /** `merge`. */
    method Merge(a: nat, b: nat)
      requires Valid() && a < |mem| && b < |mem|
      modifies this
      ensures Valid() && |mem| == old(|mem|) && pairs == old(pairs) + [Pair(a, b)]
    {
      hide Classes, Forest;
      var ra := Representative(a);
      var rb := Representative(b);
      ForestRoots(mem, cls, rank, a);
      ForestRoots(mem, cls, rank, b);
      MergeForest(mem, cls, rank, ra, rb);
      MergeClasses(cls, pairs, a, b);
      mem := mem[rb := ra];
      rank := MergedRank(cls, rank, ra, rb);
      cls := MergedClasses(cls, ra, rb);
      pairs := pairs + [Pair(a, b)];
    }

    /** `sameSet`: exactly when a chain of merged pairs leads from one to the other. */
    method SameSet(a: nat, b: nat) returns (same: bool)
      requires Valid() && a < |mem| && b < |mem|
      modifies this`mem
      ensures Valid() && |mem| == old(|mem|)
      ensures same <==> Connected(pairs, a, b)
    {
      hide Classes;
      var ra := Representative(a);
      var rb := Representative(b);
      SameClassIffConnected(cls, pairs, a, b);
      same := ra == rb;
    }

    /** `resize` to more elements: the new ones are alone. */
    method Resize(n: nat)
      requires Valid() && |mem| <= n <= UNSET
      modifies this
      ensures Valid() && |mem| == n && pairs == old(pairs)
    {
      hide Forest, Classes;
      var size, more := |mem|, seq(n - |mem|, _ => UNSET);
      ghost var own, zero := seq(n - size, i => size + i), seq(n - size, _ => 0);
      GrowOk(mem, cls, rank, pairs, more, own, zero);
      mem, cls, rank := mem + more, cls + own, rank + zero;
    }

    /** `reset`: every element alone again. */
    method Reset()
      requires Valid()
      modifies this
      ensures Valid() && |mem| == old(|mem|) && pairs == []
    {
      mem, pairs := seq(|mem|, _ => UNSET), [];
      cls, rank := seq(|mem|, i => i), seq(|mem|, _ => 0);
      SingletonsOk(mem, cls, rank);
    }
  }

  lemma SingletonsOk(mem: seq<nat>, cls: seq<nat>, rank: seq<nat>)
    requires |mem| == |cls| == |rank| <= UNSET
    requires forall i | 0 <= i < |mem| :: mem[i] == UNSET && cls[i] == i
    ensures Forest(mem, cls, rank) && Classes(cls, [])
  {
    forall x, y | 0 <= x < |cls| && 0 <= y < |cls| && cls[x] == cls[y] ensures Connected([], x, y) {
      ConnectedSelf([], x);
    }
  }

  lemma GrowOk(mem: seq<nat>, cls: seq<nat>, rank: seq<nat>, pairs: seq<Pair>, more: seq<nat>, own: seq<nat>,
      zero: seq<nat>)
    requires Forest(mem, cls, rank) && Classes(cls, pairs) && |mem| + |more| <= UNSET && |more| == |own| == |zero|
    requires forall i | 0 <= i < |more| :: more[i] == UNSET && own[i] == |mem| + i
    ensures Forest(mem + more, cls + own, rank + zero) && Classes(cls + own, pairs)
  {
    var m, c, r := mem + more, cls + own, rank + zero;
    assert forall i | |cls| <= i < |c| :: c[i] == i;
    forall i | 0 <= i < |m| ensures ElementOk(m, c, r, i) { assert i < |mem| ==> ElementOk(mem, cls, rank, i); }
    forall x, y | 0 <= x < |c| && 0 <= y < |c| && c[x] == c[y] ensures Connected(pairs, x, y) {
      if x < |cls| && y < |cls| {
        assert Connected(pairs, x, y);
      } else {
        assert x < |cls| ==> ElementOk(mem, cls, rank, x);
        assert y < |cls| ==> ElementOk(mem, cls, rank, y);
        ConnectedSelf(pairs, x);
      }
    }
  }

  lemma ForestRoots(mem: seq<nat>, cls: seq<nat>, rank: seq<nat>, i: nat)
    requires Forest(mem, cls, rank) && i < |mem|
    ensures |cls| == |mem| && |rank| == |mem| && cls[i] < |mem| && cls[cls[i]] == cls[i]
  {
    assert ElementOk(mem, cls, rank, i);
  }

  /** Along the parents the rank falls down to the root. */
  lemma {:induction false} RankAboveRoot(mem: seq<nat>, cls: seq<nat>, rank: seq<nat>, i: nat)
    requires Forest(mem, cls, rank) && i < |mem| && cls[i] != i
    ensures cls[i] < |rank| && rank[cls[i]] < rank[i]
    decreases rank[i]
  {
    assert ElementOk(mem, cls, rank, i) && ElementOk(mem, cls, rank, mem[i]);
    if cls[mem[i]] != mem[i] { RankAboveRoot(mem, cls, rank, mem[i]); }
  }

  lemma Compress(mem: seq<nat>, cls: seq<nat>, rank: seq<nat>, i: nat, r: nat)
    requires Forest(mem, cls, rank) && i < |mem| && r == cls[i] && (r == i || (r < |rank| && rank[r] < rank[i]))
    ensures Forest(mem[i := r], cls, rank)
  {
    var m := mem[i := r];
    assert ElementOk(mem, cls, rank, i);
    forall j | 0 <= j < |m| ensures ElementOk(m, cls, rank, j) { assert ElementOk(mem, cls, rank, j); }
  }
}
