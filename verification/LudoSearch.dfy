/** Breadth-first search for a cuckoo path: what the search has established when it pops an entry,
    why the first path it finds visits no bucket twice, and why its fixed-size buffers suffice. */
module LudoSearch {
  import opened Hashing
  import opened LudoTable

  const MAX_DEPTH: nat := 5
  const QUEUE_SIZE: nat := 1364
  const VISITED_SIZE: nat := 340

  /** A queued bucket: `parent` indexes the visited list, -1 for the two roots. */
  datatype Entry = Entry(bucket: nat, depth: nat, parent: int, parentSlot: int)

  predicate Full(c: Bucket)
    requires WellShaped(c)
  {
    c.occupied[0] && c.occupied[1] && c.occupied[2] && c.occupied[3]
  }

  predicate FullAt(bs: Buckets, b: nat)
    requires AllWellShaped(bs)
  {
    b < |bs| && Full(bs[b])
  }

  /** The key in slot `s` of bucket `x` could move to bucket `y`. */
  predicate Edge(h: Hash, bs: Buckets, x: nat, s: nat, y: nat)
    requires AllWellShaped(bs)
  {
    && x < |bs| && s < 4 && y != x
    && (y == Candidate(h, bs[x].keys[s], 0, |bs|) || y == Candidate(h, bs[x].keys[s], 1, |bs|))
  }

  ghost predicate Adjacent(h: Hash, bs: Buckets, x: nat, y: nat)
    requires AllWellShaped(bs)
  {
    exists s :: Edge(h, bs, x, s, y)
  }

  /** Buckets reached one after the other by moving keys. */
  ghost predicate Walk(h: Hash, bs: Buckets, w: seq<nat>)
    requires AllWellShaped(bs)
  {
    forall i :: 0 <= i < |w| - 1 ==> Adjacent(h, bs, w[i], w[i + 1])
  }

  /** The bucket-depth pairs among the first `n` queued entries. */
  ghost function MarksUpTo(seen: seq<Entry>, n: nat): set<(nat, nat)>
    requires n <= |seen|
  {
    if n == 0 then {} else MarksUpTo(seen, n - 1) + {(seen[n - 1].bucket, seen[n - 1].depth)}
  }

  ghost function Marks(seen: seq<Entry>): set<(nat, nat)> {
    MarksUpTo(seen, |seen|)
  }

  lemma {:induction false} MarkedIndex(seen: seq<Entry>, n: nat, y: nat, depth: nat) returns (j: nat)
    requires n <= |seen| && (y, depth) in MarksUpTo(seen, n)
    ensures j < n && seen[j].bucket == y && seen[j].depth == depth
  {
    if y == seen[n - 1].bucket && depth == seen[n - 1].depth {
      j := n - 1;
    } else {
      j := MarkedIndex(seen, n - 1, y, depth);
    }
  }

  lemma {:induction false} MarksFrame(seen: seq<Entry>, e: Entry, n: nat)
    requires n <= |seen|
    ensures MarksUpTo(seen + [e], n) == MarksUpTo(seen, n)
  {
    if n > 0 { MarksFrame(seen, e, n - 1); }
  }

  lemma MarksAppend(seen: seq<Entry>, e: Entry)
    ensures Marks(seen + [e]) == Marks(seen) + {(e.bucket, e.depth)}
  {
    MarksFrame(seen, e, |seen|);
  }

  /** Entries are queued in order of depth. */
  ghost predicate InOrder(seen: seq<Entry>, i: nat, j: nat) {
    i <= j < |seen| ==> seen[i].depth <= seen[j].depth
  }

  /** An entry is one of the two roots, or was reached from an earlier entry. */
  ghost predicate Derived(h: Hash, bs: Buckets, k: Key, seen: seq<Entry>, i: nat)
    requires AllWellShaped(bs) && |bs| > 0 && i < |seen|
  {
    var e := seen[i];
    && e.bucket < |bs|
    && 1 <= e.depth <= MAX_DEPTH
    && (i < 2 <==> e.depth == 1)
    && (i < 2 ==> e.bucket == Candidate(h, k, i, |bs|))
    && (i >= 2 ==>
         && 0 <= e.parent < i && 0 <= e.parentSlot < 4
         && seen[e.parent].depth == e.depth - 1
         && Edge(h, bs, seen[e.parent].bucket, e.parentSlot, e.bucket))
  }

  ghost predicate AllDerived(h: Hash, bs: Buckets, k: Key, seen: seq<Entry>)
    requires AllWellShaped(bs) && |bs| > 0
  {
    |seen| >= 2 && forall i :: 0 <= i < |seen| ==> Derived(h, bs, k, seen, i)
  }

  /** Every bucket reachable in one move from an expanded entry has been queued one level deeper. */
  ghost predicate Expanded(h: Hash, bs: Buckets, seen: seq<Entry>, i: nat)
    requires AllWellShaped(bs) && i < |seen|
  {
    seen[i].depth < MAX_DEPTH ==>
      forall s: nat, y: nat :: Edge(h, bs, seen[i].bucket, s, y) ==> (y, seen[i].depth + 1) in Marks(seen)
  }

  /** `seen` is everything ever queued; `seen[..popped]` has been popped. */
  ghost predicate SearchInv(h: Hash, bs: Buckets, k: Key, seen: seq<Entry>, popped: nat) {
    && |bs| > 0 && AllWellShaped(bs)
    && popped <= |seen|
    && AllDerived(h, bs, k, seen)
    && (forall i, j :: InOrder(seen, i, j))
    && (popped < |seen| ==> seen[|seen| - 1].depth <= seen[popped].depth + 1)
    && (forall i :: 0 <= i < popped ==> FullAt(bs, seen[i].bucket))
    && (forall i :: 0 <= i < popped ==> Expanded(h, bs, seen, i))
  }

  // ----- the first path found is a shortest path -----

  /** No walk from a queued bucket to any bucket with room is shorter than the way to the one found at `p`. */
  lemma {:induction false} NoShortcut(h: Hash, bs: Buckets, k: Key, seen: seq<Entry>, p: nat, i: nat, w: seq<nat>)
    requires SearchInv(h, bs, k, seen, p) && p < |seen| && !FullAt(bs, seen[p].bucket)
    requires i < |seen| && |w| > 0 && Walk(h, bs, w)
    requires w[0] == seen[i].bucket && !FullAt(bs, w[|w| - 1])
    ensures seen[i].depth + |w| - 1 >= seen[p].depth
    decreases |w|
  {
    assert Derived(h, bs, k, seen, p);
    assert i >= p ==> InOrder(seen, p, i);
    if i < p && |w| > 1 && seen[i].depth < MAX_DEPTH {
      assert Expanded(h, bs, seen, i);
      assert Adjacent(h, bs, w[0], w[1]);
      var s :| Edge(h, bs, w[0], s, w[1]);
      var j := MarkedIndex(seen, |seen|, w[1], seen[i].depth + 1);
      assert Walk(h, bs, w[1..]) by {
        forall x | 0 <= x < |w[1..]| - 1 ensures Adjacent(h, bs, w[1..][x], w[1..][x + 1]) {
          assert Adjacent(h, bs, w[x + 1], w[x + 2]);
        }
      }
      NoShortcut(h, bs, k, seen, p, j, w[1..]);
    }
  }

  /** Indices of the entries on the path from a root to entry `i`. */
  ghost function PathTo(h: Hash, bs: Buckets, k: Key, seen: seq<Entry>, i: nat): (path: seq<nat>)
    requires |bs| > 0 && AllWellShaped(bs) && AllDerived(h, bs, k, seen) && i < |seen|
    ensures |path| == seen[i].depth >= 1 && path[|path| - 1] == i
    ensures forall j :: 0 <= j < |path| ==> path[j] < |seen| && seen[path[j]].depth == j + 1
    decreases i
  {
    assert Derived(h, bs, k, seen, i);
    if i < 2 then [i] else PathTo(h, bs, k, seen, seen[i].parent) + [i]
  }

  lemma {:induction false} PathPrefix(h: Hash, bs: Buckets, k: Key, seen: seq<Entry>, i: nat, j: nat)
    requires |bs| > 0 && AllWellShaped(bs) && AllDerived(h, bs, k, seen) && i < |seen|
    requires j < seen[i].depth
    ensures PathTo(h, bs, k, seen, i)[..j + 1] == PathTo(h, bs, k, seen, PathTo(h, bs, k, seen, i)[j])
    decreases i
  {
    assert Derived(h, bs, k, seen, i);
    var path := PathTo(h, bs, k, seen, i);
    if j == seen[i].depth - 1 {
      assert path[..j + 1] == path;
    } else {
      var up := seen[i].parent;
      PathPrefix(h, bs, k, seen, up, j);
      assert path[..j + 1] == PathTo(h, bs, k, seen, up)[..j + 1];
    }
  }

  ghost function BucketsOf(seen: seq<Entry>, path: seq<nat>): (r: seq<nat>)
    requires forall j :: 0 <= j < |path| ==> path[j] < |seen|
    ensures |r| == |path| && forall j :: 0 <= j < |path| ==> r[j] == seen[path[j]].bucket
  {
    seq(|path|, j requires 0 <= j < |path| => seen[path[j]].bucket)
  }

  lemma {:induction false} PathIsWalk(h: Hash, bs: Buckets, k: Key, seen: seq<Entry>, i: nat)
    requires |bs| > 0 && AllWellShaped(bs) && AllDerived(h, bs, k, seen) && i < |seen|
    ensures var w := BucketsOf(seen, PathTo(h, bs, k, seen, i));
      && Walk(h, bs, w) && |w| == seen[i].depth && w[|w| - 1] == seen[i].bucket
      && (w[0] == Candidate(h, k, 0, |bs|) || w[0] == Candidate(h, k, 1, |bs|))
    decreases i
  {
    assert Derived(h, bs, k, seen, i);
    var path := PathTo(h, bs, k, seen, i);
    var w := BucketsOf(seen, path);
    if i >= 2 {
      var up := seen[i].parent;
      PathIsWalk(h, bs, k, seen, up);
      var w' := BucketsOf(seen, PathTo(h, bs, k, seen, up));
      forall x | 0 <= x < |w| - 1 ensures Adjacent(h, bs, w[x], w[x + 1]) {
        if x == |w| - 2 {
          assert Edge(h, bs, w[x], seen[i].parentSlot, w[x + 1]);
        } else {
          assert Adjacent(h, bs, w'[x], w'[x + 1]);
        }
      }
    }
  }

  /** The bucket at position `i` of the path from the root to the free bucket at `p`. */
  ghost function PathBucket(h: Hash, bs: Buckets, k: Key, seen: seq<Entry>, p: nat, i: nat): nat
    requires |bs| > 0 && AllWellShaped(bs) && AllDerived(h, bs, k, seen) && p < |seen| && i < seen[p].depth
  {
    seen[PathTo(h, bs, k, seen, p)[i]].bucket
  }

  /** The path to the first free bucket visits no bucket twice. */
  lemma FirstPathIsSimple(h: Hash, bs: Buckets, k: Key, seen: seq<Entry>, p: nat, i: nat, j: nat)
    requires SearchInv(h, bs, k, seen, p) && p < |seen| && !FullAt(bs, seen[p].bucket)
    requires i < j < seen[p].depth
    ensures PathBucket(h, bs, k, seen, p, i) != PathBucket(h, bs, k, seen, p, j)
  {
    var path := PathTo(h, bs, k, seen, p);
    var w := BucketsOf(seen, path);
    PathIsWalk(h, bs, k, seen, p);
    if w[i] == w[j] {
      var rest := w[j..];
      forall x | 0 <= x < |rest| - 1 ensures Adjacent(h, bs, rest[x], rest[x + 1]) {
        assert Adjacent(h, bs, w[j + x], w[j + x + 1]);
      }
      NoShortcut(h, bs, k, seen, p, path[i], rest);
    }
  }

  /** Entry `c` lies on the path to `p`; its parent is the full bucket one step closer to the root. */
  ghost predicate OnPath(h: Hash, bs: Buckets, k: Key, seen: seq<Entry>, p: nat, c: nat)
    requires |bs| > 0 && AllWellShaped(bs) && AllDerived(h, bs, k, seen) && p < |seen|
  {
    c < |seen| && 1 <= seen[c].depth <= seen[p].depth && PathTo(h, bs, k, seen, p)[seen[c].depth - 1] == c
  }

  lemma ParentOnPath(h: Hash, bs: Buckets, k: Key, seen: seq<Entry>, p: nat, c: nat)
    requires SearchInv(h, bs, k, seen, p) && p < |seen| && !FullAt(bs, seen[p].bucket)
    requires OnPath(h, bs, k, seen, p, c) && seen[c].depth > 1
    ensures c >= 2 && 0 <= seen[c].parent < p && 0 <= seen[c].parentSlot < 4
    ensures OnPath(h, bs, k, seen, p, seen[c].parent) && seen[seen[c].parent].depth == seen[c].depth - 1
    ensures FullAt(bs, seen[seen[c].parent].bucket)
    ensures Edge(h, bs, seen[seen[c].parent].bucket, seen[c].parentSlot, seen[c].bucket)
  {
    assert Derived(h, bs, k, seen, c);
    var path := PathTo(h, bs, k, seen, p);
    PathPrefix(h, bs, k, seen, p, seen[c].depth - 1);
    assert path[..seen[c].depth] == PathTo(h, bs, k, seen, c);
    assert path[seen[c].depth - 2] == PathTo(h, bs, k, seen, c)[seen[c].depth - 2] == seen[c].parent;
    assert Derived(h, bs, k, seen, seen[c].parent);
    assert InOrder(seen, p, seen[c].parent);
  }

  /** The path bucket at position `i` has not been modified yet. */
  ghost predicate Untouched(h: Hash, bs: Buckets, now: Buckets, k: Key, seen: seq<Entry>, p: nat, i: nat)
    requires |bs| > 0 && AllWellShaped(bs) && AllDerived(h, bs, k, seen) && p < |seen| && i < seen[p].depth
  {
    var b := PathBucket(h, bs, k, seen, p, i);
    b < |bs| && b < |now| && now[b] == bs[b]
  }

  /** The next key to shift is still where the search saw it. */
  lemma ReadyToShift(h: Hash, bs: Buckets, now: Buckets, k: Key, seen: seq<Entry>, p: nat, c: nat)
    requires SearchInv(h, bs, k, seen, p) && p < |seen| && !FullAt(bs, seen[p].bucket)
    requires OnPath(h, bs, k, seen, p, c) && seen[c].depth > 1
    requires |now| == |bs| && AllWellShaped(now)
    requires forall i :: 0 <= i < seen[c].depth - 1 ==> Untouched(h, bs, now, k, seen, p, i)
    ensures c >= 2 && 0 <= seen[c].parent < p && 0 <= seen[c].parentSlot < 4
    ensures OnPath(h, bs, k, seen, p, seen[c].parent) && seen[seen[c].parent].depth == seen[c].depth - 1
    ensures FullAt(now, seen[seen[c].parent].bucket) && now[seen[seen[c].parent].bucket].occupied[seen[c].parentSlot]
    ensures Edge(h, now, seen[seen[c].parent].bucket, seen[c].parentSlot, seen[c].bucket)
  {
    ParentOnPath(h, bs, k, seen, p, c);
    assert Untouched(h, bs, now, k, seen, p, seen[c].depth - 2);
  }

  lemma InitiallyUntouched(h: Hash, bs: Buckets, now: Buckets, k: Key, seen: seq<Entry>, p: nat)
    requires SearchInv(h, bs, k, seen, p) && p < |seen| && !FullAt(bs, seen[p].bucket) && |now| == |bs|
    requires forall b :: 0 <= b < |bs| && b != seen[p].bucket ==> now[b] == bs[b]
    ensures forall i :: 0 <= i < seen[p].depth - 1 ==> Untouched(h, bs, now, k, seen, p, i)
  {
    forall i | 0 <= i < seen[p].depth - 1 ensures Untouched(h, bs, now, k, seen, p, i) {
      assert Derived(h, bs, k, seen, PathTo(h, bs, k, seen, p)[i]);
      FirstPathIsSimple(h, bs, k, seen, p, i, seen[p].depth - 1);
    }
  }

  /** A move into the bucket of entry `c` modifies no bucket closer to the root, because the path is simple. */
  lemma StillUntouched(h: Hash, bs: Buckets, before: Buckets, after: Buckets, k: Key, seen: seq<Entry>, p: nat, c: nat)
    requires SearchInv(h, bs, k, seen, p) && p < |seen| && !FullAt(bs, seen[p].bucket)
    requires OnPath(h, bs, k, seen, p, c) && |before| == |after|
    requires forall b :: 0 <= b < |after| && b != seen[c].bucket ==> after[b] == before[b]
    requires forall i :: 0 <= i < seen[c].depth - 1 ==> Untouched(h, bs, before, k, seen, p, i)
    ensures forall i :: 0 <= i < seen[c].depth - 1 ==> Untouched(h, bs, after, k, seen, p, i)
  {
    forall i | 0 <= i < seen[c].depth - 1 ensures Untouched(h, bs, after, k, seen, p, i) {
      assert Untouched(h, bs, before, k, seen, p, i);
      FirstPathIsSimple(h, bs, k, seen, p, i, seen[c].depth - 1);
    }
  }

  /** While keys are shifted along the path: the hole is in the bucket of entry `c`, the map is still `m`,
      and everything closer to the root is as the search saw it. */
  ghost predicate Shifting(h: Hash, bs: Buckets, now: Buckets, loc: Locator, at: Places, m: map<Key, Value>,
                           k: Key, seen: seq<Entry>, p: nat, c: nat, slot: nat)
    requires SearchInv(h, bs, k, seen, p) && p < |seen|
  {
    && |now| == |bs| && AllWellShaped(now)
    && OnPath(h, bs, k, seen, p, c) && seen[c].bucket < |now|
    && slot < 4 && now[seen[c].bucket].occupied[slot]
    && TableInv(h, WithHole(now, seen[c].bucket, slot), loc, at)
    && Contents(WithHole(now, seen[c].bucket, slot), at) == m
    && forall i :: 0 <= i < seen[c].depth - 1 ==> Untouched(h, bs, now, k, seen, p, i)
  }

  lemma StartShifting(h: Hash, bs: Buckets, now: Buckets, loc: Locator, at: Places, k: Key, seen: seq<Entry>,
      p: nat, slot: nat)
    requires TableInv(h, bs, loc, at) && SearchInv(h, bs, k, seen, p) && p < |seen|
    requires slot < 4 && seen[p].bucket < |bs| && !bs[seen[p].bucket].occupied[slot]
    requires now == bs[seen[p].bucket := bs[seen[p].bucket].(occupied := bs[seen[p].bucket].occupied[slot := true])]
    ensures Shifting(h, bs, now, loc, at, Contents(bs, at), k, seen, p, p, slot) && !FullAt(bs, seen[p].bucket)
  {
    assert Derived(h, bs, k, seen, p);
    OpenHole(bs, seen[p].bucket, slot, now[seen[p].bucket]);
    InitiallyUntouched(h, bs, now, k, seen, p);
  }

  lemma RootReached(h: Hash, bs: Buckets, now: Buckets, loc: Locator, at: Places, m: map<Key, Value>, k: Key,
      seen: seq<Entry>, p: nat, c: nat, slot: nat)
    requires SearchInv(h, bs, k, seen, p) && p < |seen|
    requires Shifting(h, bs, now, loc, at, m, k, seen, p, c, slot) && seen[c].depth == 1
    ensures c < 2 && seen[c].bucket == Candidate(h, k, c, |now|)
  {
    assert Derived(h, bs, k, seen, c);
  }

  // ----- whether a path can be followed -----

  /** The key that moves into the bucket of entry `c`: the one in its parent's slot, or the new key at a root. */
  ghost function Incoming(h: Hash, bs: Buckets, k: Key, seen: seq<Entry>, c: nat): (j: Key)
    requires |bs| > 0 && AllWellShaped(bs) && AllDerived(h, bs, k, seen) && c < |seen|
  {
    assert Derived(h, bs, k, seen, c);
    if c < 2 then k
    else assert Derived(h, bs, k, seen, seen[c].parent); bs[seen[seen[c].parent].bucket].keys[seen[c].parentSlot]
  }

  /** From entry `c` up to its root, every bucket on the path, with the key that moves in put in the slot that the
      previous one leaves, can be separated. It is a condition on the table before anything moves. */
  ghost predicate PathFits(h: Hash, bs: Buckets, k: Key, seen: seq<Entry>, c: nat, slot: nat)
    requires |bs| > 0 && AllWellShaped(bs) && AllDerived(h, bs, k, seen) && c < |seen| && slot < 4
    decreases c
  {
    assert Derived(h, bs, k, seen, c);
    && Separable(h, Filled(bs[seen[c].bucket], slot, Incoming(h, bs, k, seen, c), 0, 0))
    && (c >= 2 ==> PathFits(h, bs, k, seen, seen[c].parent, seen[c].parentSlot))
  }

  /** The bucket of entry `c` is as the search saw it, but for the slot counted as occupied. */
  ghost predicate OnlySlotTaken(bs: Buckets, now: Buckets, b: nat, slot: nat)
    requires AllWellShaped(bs) && slot < 4
  {
    b < |bs| && b < |now| && now[b] == bs[b].(occupied := bs[b].occupied[slot := true])
  }

  /** The move out of the parent of entry `c` succeeds exactly if the path fits at `c`. */
  lemma MoveFits(h: Hash, bs: Buckets, now: Buckets, k: Key, seen: seq<Entry>, p: nat, c: nat, slot: nat)
    requires SearchInv(h, bs, k, seen, p) && p < |seen| && !FullAt(bs, seen[p].bucket)
    requires OnPath(h, bs, k, seen, p, c) && seen[c].depth > 1 && slot < 4
    requires AllWellShaped(now) && OnlySlotTaken(bs, now, seen[c].bucket, slot)
    requires forall i :: 0 <= i < seen[c].depth - 1 ==> Untouched(h, bs, now, k, seen, p, i)
    ensures c >= 2 && 0 <= seen[c].parent < |seen| && seen[seen[c].parent].bucket < |now| && 0 <= seen[c].parentSlot < 4
    ensures var from := now[seen[seen[c].parent].bucket];
      Separable(h, Filled(now[seen[c].bucket], slot, from.keys[seen[c].parentSlot], from.values[seen[c].parentSlot], 0))
      <==> Separable(h, Filled(bs[seen[c].bucket], slot, Incoming(h, bs, k, seen, c), 0, 0))
    ensures OnlySlotTaken(bs, now, seen[seen[c].parent].bucket, seen[c].parentSlot)
  {
    ParentOnPath(h, bs, k, seen, p, c);
    assert Derived(h, bs, k, seen, c);
    assert Untouched(h, bs, now, k, seen, p, seen[c].depth - 2);
    var up := seen[seen[c].parent].bucket;
    var from := now[up];
    assert bs[up].occupied[seen[c].parentSlot := true] == bs[up].occupied;
    SameKeysSameSeeds(h,
      Filled(now[seen[c].bucket], slot, from.keys[seen[c].parentSlot], from.values[seen[c].parentSlot], 0),
      Filled(bs[seen[c].bucket], slot, Incoming(h, bs, k, seen, c), 0, 0));
  }

  /** When the search runs dry, every bucket within reach of `MAX_DEPTH` hops is full: the search is complete. */
  lemma {:induction false} SearchIsComplete(h: Hash, bs: Buckets, k: Key, seen: seq<Entry>, i: nat, w: seq<nat>)
    requires SearchInv(h, bs, k, seen, |seen|)
    requires i < |seen| && |w| > 0 && Walk(h, bs, w) && w[0] == seen[i].bucket
    requires seen[i].depth + |w| - 1 <= MAX_DEPTH
    ensures FullAt(bs, w[|w| - 1])
    decreases |w|
  {
    assert Derived(h, bs, k, seen, i);
    if |w| > 1 {
      assert Expanded(h, bs, seen, i);
      assert Adjacent(h, bs, w[0], w[1]);
      var s :| Edge(h, bs, w[0], s, w[1]);
      var j := MarkedIndex(seen, |seen|, w[1], seen[i].depth + 1);
      assert Walk(h, bs, w[1..]) by {
        forall x | 0 <= x < |w[1..]| - 1 ensures Adjacent(h, bs, w[1..][x], w[1..][x + 1]) {
          assert Adjacent(h, bs, w[x + 1], w[x + 2]);
        }
      }
      SearchIsComplete(h, bs, k, seen, j, w[1..]);
    }
  }

  /** No bucket that four moves or fewer lead to from a candidate of `k` has a free slot. */
  ghost predicate NothingInReach(h: Hash, bs: Buckets, k: Key)
    requires |bs| > 0 && AllWellShaped(bs)
  {
    forall w: seq<nat> {:trigger Walk(h, bs, w)} ::
      0 < |w| <= 5 && Walk(h, bs, w) && (w[0] == Candidate(h, k, 0, |bs|) || w[0] == Candidate(h, k, 1, |bs|))
      ==> FullAt(bs, w[|w| - 1])
  }

  lemma NoPathMeansNothingInReach(h: Hash, bs: Buckets, k: Key, seen: seq<Entry>)
    requires SearchInv(h, bs, k, seen, |seen|)
    ensures NothingInReach(h, bs, k)
  {
    assert Derived(h, bs, k, seen, 0) && Derived(h, bs, k, seen, 1);
    forall w: seq<nat> | 0 < |w| <= MAX_DEPTH && Walk(h, bs, w) &&
        (w[0] == Candidate(h, k, 0, |bs|) || w[0] == Candidate(h, k, 1, |bs|))
      ensures FullAt(bs, w[|w| - 1])
    {
      SearchIsComplete(h, bs, k, seen, if w[0] == Candidate(h, k, 0, |bs|) then 0 else 1, w);
    }
  }

  /** A bucket with room that the search has queued is in reach. */
  lemma FoundIsInReach(h: Hash, bs: Buckets, k: Key, seen: seq<Entry>, p: nat)
    requires SearchInv(h, bs, k, seen, p) && p < |seen| && !FullAt(bs, seen[p].bucket)
    ensures !NothingInReach(h, bs, k)
  {
    assert Derived(h, bs, k, seen, p);
    PathIsWalk(h, bs, k, seen, p);
  }

  /** Every walk from a candidate of `k` to a bucket with room visits at least `depth` buckets. */
  ghost predicate NothingCloser(h: Hash, bs: Buckets, k: Key, depth: int)
    requires |bs| > 0 && AllWellShaped(bs)
  {
    forall w: seq<nat> {:trigger Walk(h, bs, w)} ::
      0 < |w| && Walk(h, bs, w) && (w[0] == Candidate(h, k, 0, |bs|) || w[0] == Candidate(h, k, 1, |bs|))
      && !FullAt(bs, w[|w| - 1])
      ==> |w| >= depth
  }

  /** The first bucket with room that is popped is a nearest one. */
  lemma FirstPathIsShortest(h: Hash, bs: Buckets, k: Key, seen: seq<Entry>, p: nat)
    requires SearchInv(h, bs, k, seen, p) && p < |seen| && !FullAt(bs, seen[p].bucket)
    ensures NothingCloser(h, bs, k, seen[p].depth)
  {
    assert Derived(h, bs, k, seen, 0) && Derived(h, bs, k, seen, 1);
    forall w: seq<nat> | 0 < |w| && Walk(h, bs, w) && !FullAt(bs, w[|w| - 1])
        && (w[0] == Candidate(h, k, 0, |bs|) || w[0] == Candidate(h, k, 1, |bs|))
      ensures |w| >= seen[p].depth
    {
      NoShortcut(h, bs, k, seen, p, if w[0] == Candidate(h, k, 0, |bs|) then 0 else 1, w);
    }
  }

  // ----- one step of the search -----

  function Roots(h: Hash, k: Key, n: nat): seq<Entry>
    requires n > 0
  {
    [Entry(Candidate(h, k, 0, n), 1, -1, -1), Entry(Candidate(h, k, 1, n), 1, -1, -1)]
  }

  lemma RootsStart(h: Hash, bs: Buckets, k: Key)
    requires |bs| > 0 && AllWellShaped(bs)
    ensures SearchInv(h, bs, k, Roots(h, k, |bs|), 0)
  {
  }

  /** Queueing a child of the entry being expanded. */
  lemma PushKeeps(h: Hash, bs: Buckets, k: Key, seen: seq<Entry>, p: nat, s: nat, y: nat)
    requires SearchInv(h, bs, k, seen, p) && p < |seen| && seen[p].depth < MAX_DEPTH
    requires Edge(h, bs, seen[p].bucket, s, y)
    ensures SearchInv(h, bs, k, seen + [Entry(y, seen[p].depth + 1, p, s)], p)
  {
    var e := Entry(y, seen[p].depth + 1, p, s);
    var seen' := seen + [e];
    assert Derived(h, bs, k, seen, p);
    MarksAppend(seen, e);
    forall i | 0 <= i < |seen'| ensures Derived(h, bs, k, seen', i) {
      if i < |seen| { assert Derived(h, bs, k, seen, i); }
    }
    forall i, j ensures InOrder(seen', i, j) {
      assert InOrder(seen, i, j) && InOrder(seen, i, |seen| - 1);
    }
    forall i | 0 <= i < p ensures Expanded(h, bs, seen', i) && FullAt(bs, seen'[i].bucket) {
      assert Expanded(h, bs, seen, i) && FullAt(bs, seen[i].bucket);
    }
  }

  /** The entry at `p` is full and all its moves are queued: it counts as popped. */
  lemma PopKeeps(h: Hash, bs: Buckets, k: Key, seen: seq<Entry>, p: nat)
    requires SearchInv(h, bs, k, seen, p) && p < |seen|
    requires FullAt(bs, seen[p].bucket) && Expanded(h, bs, seen, p)
    ensures SearchInv(h, bs, k, seen, p + 1)
  {
    assert InOrder(seen, p, p + 1);
  }

  // ----- the buffers are large enough -----

  /** Entries that one entry at this depth can still cause to be queued, itself excluded. */
  function Offspring(depth: nat): nat
    decreases MAX_DEPTH - depth
  {
    if depth >= MAX_DEPTH then 0 else 4 + 4 * Offspring(depth + 1)
  }

  /** Entries at or below this depth that can still enter the visited list. */
  function Visits(depth: nat): nat
    decreases MAX_DEPTH - depth
  {
    if depth >= MAX_DEPTH then 0 else 1 + 4 * Visits(depth + 1)
  }

  function PendingPushes(seen: seq<Entry>, i: nat): nat
    decreases |seen| - i
  {
    if i >= |seen| then 0 else Offspring(seen[i].depth) + PendingPushes(seen, i + 1)
  }

  function PendingVisits(seen: seq<Entry>, i: nat): nat
    decreases |seen| - i
  {
    if i >= |seen| then 0 else Visits(seen[i].depth) + PendingVisits(seen, i + 1)
  }

  lemma {:induction false} PendingAppend(seen: seq<Entry>, i: nat, e: Entry)
    requires i <= |seen|
    ensures PendingPushes(seen + [e], i) == PendingPushes(seen, i) + Offspring(e.depth)
    ensures PendingVisits(seen + [e], i) == PendingVisits(seen, i) + Visits(e.depth)
    decreases |seen| - i
  {
    if i < |seen| {
      PendingAppend(seen, i + 1, e);
    } else {
      assert PendingPushes(seen + [e], i + 1) == 0 && PendingVisits(seen + [e], i + 1) == 0;
    }
  }

  /** Four children per expanded bucket, two roots, five levels: at most 682 pushes and 170 visits. */
  ghost predicate WithinBudget(seen: seq<Entry>, popped: nat, visits: nat) {
    && popped <= |seen|
    && |seen| + PendingPushes(seen, popped) <= 682
    && visits + PendingVisits(seen, popped) <= 170
  }

  lemma RootsWithinBudget(seen: seq<Entry>)
    requires |seen| == 2 && seen[0].depth == 1 && seen[1].depth == 1
    ensures WithinBudget(seen, 0, 0)
  {
    assert Offspring(4) == 4 && Offspring(3) == 20 && Offspring(2) == 84 && Offspring(1) == 340;
    assert Visits(4) == 1 && Visits(3) == 5 && Visits(2) == 21 && Visits(1) == 85;
    assert PendingPushes(seen, 1) == 340 + PendingPushes(seen, 2);
    assert PendingVisits(seen, 1) == 85 + PendingVisits(seen, 2);
  }

  ghost predicate MovesQueued(h: Hash, bs: Buckets, seen: seq<Entry>, e: Entry, slot: nat)
    requires AllWellShaped(bs)
  {
    forall y: nat :: Edge(h, bs, e.bucket, slot, y) ==> (y, e.depth + 1) in Marks(seen)
  }

  /** Every key of the bucket has it as one of its two candidates. */
  predicate AtHome(h: Hash, bs: Buckets, b: nat)
    requires AllWellShaped(bs)
  {
    b < |bs| && forall s :: 0 <= s < 4 ==>
      b == Candidate(h, bs[b].keys[s], 0, |bs|) || b == Candidate(h, bs[b].keys[s], 1, |bs|)
  }

  /** Every full bucket holds keys that may live there. */
  ghost predicate Homes(h: Hash, bs: Buckets) {
    |bs| > 0 && AllWellShaped(bs) && forall b: nat :: FullAt(bs, b) ==> AtHome(h, bs, b)
  }

  lemma TableHasHomes(h: Hash, bs: Buckets, loc: Locator, at: Places)
    requires TableInv(h, bs, loc, at)
    ensures Homes(h, bs)
  {
    forall b: nat, s | FullAt(bs, b) && 0 <= s < 4
      ensures b == Candidate(h, bs[b].keys[s], 0, |bs|) || b == Candidate(h, bs[b].keys[s], 1, |bs|)
    {
      StoredKeyIsRegistered(h, bs, loc, at, b, s, bs[b].keys[s]);
    }
  }

  /** The move out of one slot of the entry at `p` has been queued, at the cost of one child. */
  ghost predicate SlotQueued(h: Hash, bs: Buckets, k: Key, seen0: seq<Entry>, seen: seq<Entry>, p: nat, slot: nat)
    requires |bs| > 0 && AllWellShaped(bs) && p < |seen0|
  {
    var entry := seen0[p];
    && SearchInv(h, bs, k, seen, p) && seen0 <= seen
    && |seen| + PendingPushes(seen, p + 1)
       <= |seen0| + PendingPushes(seen0, p + 1) + 1 + Offspring(entry.depth + 1)
    && PendingVisits(seen, p + 1) <= PendingVisits(seen0, p + 1) + Visits(entry.depth + 1)
    && MovesQueued(h, bs, seen, entry, slot)
    && Marks(seen0) <= Marks(seen)
  }

  function ChildEntry(seen: seq<Entry>, p: nat, slot: nat, y: nat): Entry
    requires p < |seen|
  {
    Entry(y, seen[p].depth + 1, p, slot)
  }

  /** `y` is the only bucket other than its own that the key of this slot may move to. */
  predicate OnlyMove(h: Hash, bs: Buckets, x: nat, slot: nat, y: nat)
    requires |bs| > 0 && AllWellShaped(bs) && x < |bs| && slot < 4
  {
    forall i: Bit :: i < 2 ==>
        Candidate(h, bs[x].keys[slot], i, |bs|) == x || Candidate(h, bs[x].keys[slot], i, |bs|) == y
  }

  lemma QueueSlot(h: Hash, bs: Buckets, k: Key, seen0: seq<Entry>, p: nat, slot: nat, y: nat)
    requires SearchInv(h, bs, k, seen0, p) && p < |seen0| && seen0[p].depth < MAX_DEPTH
    requires slot < 4 && FullAt(bs, seen0[p].bucket) && OnlyMove(h, bs, seen0[p].bucket, slot, y)
    requires y != seen0[p].bucket ==> Edge(h, bs, seen0[p].bucket, slot, y)
    ensures SlotQueued(h, bs, k, seen0, if y == seen0[p].bucket then seen0
              else seen0 + [ChildEntry(seen0, p, slot, y)], p, slot)
  {
    if y != seen0[p].bucket {
      var child := ChildEntry(seen0, p, slot, y);
      PushKeeps(h, bs, k, seen0, p, slot, y);
      MarksAppend(seen0, child);
      PendingAppend(seen0, p + 1, child);
    }
  }

  /** Pushes, respectively visits, that `n` more children at this depth can cause. */
  function PushRoom(n: nat, depth: nat): nat {
    if n == 0 then 0 else 1 + Offspring(depth) + PushRoom(n - 1, depth)
  }

  function VisitRoom(n: nat, depth: nat): nat {
    if n == 0 then 0 else Visits(depth) + VisitRoom(n - 1, depth)
  }

  lemma RoomForFour(depth: nat)
    requires depth < MAX_DEPTH
    ensures PushRoom(4, depth + 1) == Offspring(depth) && 1 + VisitRoom(4, depth + 1) == Visits(depth)
  {
    assert PushRoom(3, depth + 1) == 1 + Offspring(depth + 1) + PushRoom(2, depth + 1);
    assert VisitRoom(3, depth + 1) == Visits(depth + 1) + VisitRoom(2, depth + 1);
    assert PushRoom(1, depth + 1) == 1 + Offspring(depth + 1) + PushRoom(0, depth + 1);
    assert VisitRoom(1, depth + 1) == Visits(depth + 1) + VisitRoom(0, depth + 1);
  }

  /** Slots are tried in cyclic order. */
  function SlotAt(start: SlotIndex, i: nat): SlotIndex {
    if i == 0 then start
    else
      var s := SlotAt(start, i - 1);
      if s == 3 then 0 else s + 1
  }

  lemma {:induction false} SlotAtIsModulo(start: SlotIndex, i: nat)
    ensures SlotAt(start, i) == (start + i) % 4
  {
    if i > 0 { SlotAtIsModulo(start, i - 1); }
  }

  // ----- the search as a function of the table -----

  /** Where a key of bucket `b` may move: its other candidate, or `b` itself if it has only that one. */
  function OtherCandidate(h: Hash, k: Key, b: nat, n: nat): (y: nat)
    requires n > 0
  {
    if Candidate(h, k, 0, n) != b then Candidate(h, k, 0, n) else Candidate(h, k, 1, n)
  }

  /** The slot that is tried first. */
  function StartSlot(e: Entry): (s: SlotIndex) {
    (e.depth + e.bucket) % 4
  }

  function Moves(h: Hash, bs: Buckets, b: nat, start: SlotIndex): (moves: seq<nat>)
    requires AllWellShaped(bs) && b < |bs|
    ensures |moves| == 4
  {
    seq(4, i requires 0 <= i < 4 => OtherCandidate(h, bs[b].keys[SlotAt(start, i)], b, |bs|))
  }

  lemma NoMoves(h: Hash, bs: Buckets, b: nat, start: SlotIndex)
    requires AllWellShaped(bs) && b < |bs|
    ensures LegalMoves(h, bs, b, start, []) && Moves(h, bs, b, start)[..0] == []
  {
  }

  lemma NextMove(h: Hash, bs: Buckets, b: nat, start: SlotIndex, i: nat)
    requires AllWellShaped(bs) && b < |bs| && i < 4
    ensures var moves := Moves(h, bs, b, start);
      moves[..i] + [OtherCandidate(h, bs[b].keys[SlotAt(start, i)], b, |bs|)] == moves[..i + 1]
  {
  }

  /** The queued entries once the entry at `p`, whose bucket is full, has been popped. */
  function NextSeen(h: Hash, bs: Buckets, seen: seq<Entry>, p: nat): (next: seq<Entry>)
    requires AllWellShaped(bs)
    ensures seen <= next
  {
    if p < |seen| && seen[p].bucket < |bs| && seen[p].depth < MAX_DEPTH
    then seen + Children(seen[p], p, StartSlot(seen[p]), Moves(h, bs, seen[p].bucket, StartSlot(seen[p])), 4)
    else seen
  }

  /** Everything queued by the time `p` entries, all of full buckets, have been popped. */
  function Explored(h: Hash, bs: Buckets, k: Key, p: nat): (seen: seq<Entry>)
    requires |bs| > 0 && AllWellShaped(bs)
  {
    if p == 0 then Roots(h, k, |bs|) else NextSeen(h, bs, Explored(h, bs, k, p - 1), p - 1)
  }

  lemma ExploredStart(h: Hash, bs: Buckets, k: Key)
    requires |bs| > 0 && AllWellShaped(bs)
    ensures Explored(h, bs, k, 0) == Roots(h, k, |bs|)
  {
  }

  lemma ExploredStep(h: Hash, bs: Buckets, k: Key, p: nat)
    requires |bs| > 0 && AllWellShaped(bs)
    ensures Explored(h, bs, k, p + 1) == NextSeen(h, bs, Explored(h, bs, k, p), p)
  {
  }

  lemma {:induction false} ExploredGrows(h: Hash, bs: Buckets, k: Key, p: nat, q: nat)
    requires |bs| > 0 && AllWellShaped(bs) && p <= q
    ensures Explored(h, bs, k, p) <= Explored(h, bs, k, q)
    decreases q
  {
    hide NextSeen;
    if p < q { ExploredGrows(h, bs, k, p, q - 1); }
  }

  /** The search has popped entry `p`, the first whose bucket has room. */
  ghost predicate FoundAt(h: Hash, bs: Buckets, k: Key, seen: seq<Entry>, p: nat) {
    SearchInv(h, bs, k, seen, p) && p < |seen| && seen == Explored(h, bs, k, p)
    && seen[p].bucket < |bs| && !FullAt(bs, seen[p].bucket)
  }

  /** A table and a key determine the path that is found. */
  lemma OnlyOnePath(h: Hash, bs: Buckets, k: Key, seen: seq<Entry>, p: nat, seen': seq<Entry>, p': nat)
    requires FoundAt(h, bs, k, seen, p) && FoundAt(h, bs, k, seen', p')
    ensures p == p' && seen == seen'
  {
    hide Explored;
    if p < p' {
      ExploredGrows(h, bs, k, p, p');
    } else {
      ExploredGrows(h, bs, k, p', p);
    }
  }

  /** The entry that the `i`-th key of a bucket leads to, tried from slot `(depth + bucket) mod 4` on in cyclic order:
      one level deeper, in the key's candidate that is another bucket, if there is one. */
  ghost function ChildAt(h: Hash, bs: Buckets, e: Entry, p: nat, i: nat): (r: seq<Entry>)
    requires AllWellShaped(bs) && e.bucket < |bs| && i < 4
  {
    var slot := (e.depth + e.bucket + i) % 4;
    var low, high := Candidate(h, bs[e.bucket].keys[slot], 0, |bs|), Candidate(h, bs[e.bucket].keys[slot], 1, |bs|);
    if low != e.bucket then [Entry(low, e.depth + 1, p, slot)]
    else if high != e.bucket then [Entry(high, e.depth + 1, p, slot)]
    else []
  }

  /** The search starts from the candidate of the low half, then that of the high half, and queues behind every popped
      entry above the fifth level what its four keys lead to. */
  lemma ExpandsInOrder(h: Hash, bs: Buckets, k: Key, p: nat)
    requires |bs| > 0 && AllWellShaped(bs)
    ensures Explored(h, bs, k, 0) ==
        [Entry(Candidate(h, k, 0, |bs|), 1, -1, -1), Entry(Candidate(h, k, 1, |bs|), 1, -1, -1)]
    ensures var seen := Explored(h, bs, k, p);
      p < |seen| && seen[p].bucket < |bs| ==>
        Explored(h, bs, k, p + 1) == seen +
          if seen[p].depth < 5 then
            ChildAt(h, bs, seen[p], p, 0) + ChildAt(h, bs, seen[p], p, 1) + ChildAt(h, bs, seen[p], p, 2)
            + ChildAt(h, bs, seen[p], p, 3)
          else []
  {
    var seen := Explored(h, bs, k, p);
    ExploredStep(h, bs, k, p);
    if p < |seen| && seen[p].bucket < |bs| && seen[p].depth < 5 {
      ChildrenInOrder(h, bs, seen[p], p);
    }
  }

  lemma ChildNext(h: Hash, bs: Buckets, e: Entry, p: nat, i: nat)
    requires AllWellShaped(bs) && e.bucket < |bs| && i < 4
    ensures var moves := Moves(h, bs, e.bucket, StartSlot(e));
      Children(e, p, StartSlot(e), moves, i + 1) == Children(e, p, StartSlot(e), moves, i) + ChildAt(h, bs, e, p, i)
  {
    hide Candidate, SlotAt;
    SlotAtIsModulo(StartSlot(e), i);
  }

  lemma ChildrenInOrder(h: Hash, bs: Buckets, e: Entry, p: nat)
    requires AllWellShaped(bs) && e.bucket < |bs|
    ensures Children(e, p, StartSlot(e), Moves(h, bs, e.bucket, StartSlot(e)), 4)
      == ChildAt(h, bs, e, p, 0) + ChildAt(h, bs, e, p, 1) + ChildAt(h, bs, e, p, 2) + ChildAt(h, bs, e, p, 3)
  {
    hide ChildAt, StartSlot, Moves;
    assert Children(e, p, StartSlot(e), Moves(h, bs, e.bucket, StartSlot(e)), 0) == [];
    ChildNext(h, bs, e, p, 0);
    ChildNext(h, bs, e, p, 1);
    ChildNext(h, bs, e, p, 2);
    ChildNext(h, bs, e, p, 3);
  }

  // ----- the budget is attained -----

  /** Every full bucket that the search comes to leads away by each of its four keys. */
  ghost predicate NoDeadEnds(h: Hash, bs: Buckets, k: Key, ps: set<nat>)
    requires |bs| > 0 && AllWellShaped(bs)
  {
    && (forall i: Bit :: Candidate(h, k, i, |bs|) in ps)
    && (forall b :: b in ps ==> b < |bs|)
    && forall b: nat, s: SlotIndex {:trigger OtherCandidate(h, bs[b].keys[s], b, |bs|)} :: b in ps ==>
         OtherCandidate(h, bs[b].keys[s], b, |bs|) != b && OtherCandidate(h, bs[b].keys[s], b, |bs|) in ps
  }

  /** The depth of the `j`-th queued entry when nothing is a dead end: two roots, then four children to each entry. */
  function DepthAt(j: nat): (d: nat) {
    if j < 2 then 1 else 1 + DepthAt((j - 2) / 4)
  }

  lemma {:induction false} DepthsAre(j: nat)
    requires j < 682
    ensures DepthAt(j) == if j < 2 then 1 else if j < 10 then 2 else if j < 42 then 3 else if j < 170 then 4 else 5
    decreases j
  {
    if j >= 2 { DepthsAre((j - 2) / 4); }
  }

  ghost predicate GrownBy(h: Hash, bs: Buckets, k: Key, ps: set<nat>, p: nat)
    requires |bs| > 0 && AllWellShaped(bs)
  {
    var seen := Explored(h, bs, k, p);
    && |seen| == 2 + 4 * (if p < 170 then p else 170)
    && forall j :: 0 <= j < |seen| ==> seen[j].bucket in ps && seen[j].depth == DepthAt(j)
  }

  lemma {:induction false} GrowsByFour(h: Hash, bs: Buckets, k: Key, ps: set<nat>, p: nat)
    requires |bs| > 0 && AllWellShaped(bs) && NoDeadEnds(h, bs, k, ps) && p <= 682
    ensures GrownBy(h, bs, k, ps, p)
  {
    if p > 0 {
      GrowsByFour(h, bs, k, ps, p - 1);
      var seen := Explored(h, bs, k, p - 1);
      DepthsAre(p - 1);
      if p - 1 < 170 {
        FourChildren(h, bs, k, ps, seen, p - 1);
      }
    }
  }

  lemma AllFourQueued(e: Entry, p: nat, start: SlotIndex, moves: seq<nat>)
    requires |moves| == 4 && forall i :: 0 <= i < 4 ==> moves[i] != e.bucket
    ensures var c := Children(e, p, start, moves, 4);
      |c| == 4 && forall i :: 0 <= i < 4 ==> c[i].bucket == moves[i] && c[i].depth == e.depth + 1
  {
    assert Children(e, p, start, moves, 0) == [];
    assert |Children(e, p, start, moves, 1)| == 1;
    assert |Children(e, p, start, moves, 2)| == 2;
    assert |Children(e, p, start, moves, 3)| == 3;
  }

  lemma FourChildren(h: Hash, bs: Buckets, k: Key, ps: set<nat>, seen: seq<Entry>, p: nat)
    requires |bs| > 0 && AllWellShaped(bs) && NoDeadEnds(h, bs, k, ps) && p < |seen| == 2 + 4 * p
    requires seen[p].bucket in ps && seen[p].depth == DepthAt(p) < MAX_DEPTH
    ensures var next := NextSeen(h, bs, seen, p);
      && |next| == |seen| + 4 && next[..|seen|] == seen
      && forall j :: |seen| <= j < |next| ==> next[j].bucket in ps && next[j].depth == DepthAt(j)
  {
    var e, b := seen[p], seen[p].bucket;
    var start := StartSlot(e);
    var moves := Moves(h, bs, b, start);
    forall i | 0 <= i < 4 ensures moves[i] != b && moves[i] in ps {
      assert moves[i] == OtherCandidate(h, bs[b].keys[SlotAt(start, i)], b, |bs|);
    }
    hide Moves, Children;
    AllFourQueued(e, p, start, moves);
    forall j | |seen| <= j < |seen| + 4 ensures DepthAt(j) == 1 + DepthAt(p) {
      assert (j - 2) / 4 == p;
    }
  }

  /** Without dead ends the search queues exactly 682 entries, of which exactly the first 170 are expanded. */
  lemma BudgetAttained(h: Hash, bs: Buckets, k: Key, ps: set<nat>)
    requires |bs| > 0 && AllWellShaped(bs) && NoDeadEnds(h, bs, k, ps)
    ensures |Explored(h, bs, k, 682)| == 682
    ensures forall j :: 0 <= j < 682 ==> (Explored(h, bs, k, 682)[j].depth < 5 <==> j < 170)
    ensures forall p :: 0 <= p < 682 ==> p < |Explored(h, bs, k, p)|
  {
    hide Explored;
    GrowsByFour(h, bs, k, ps, 682);
    forall j | 0 <= j < 682 ensures Explored(h, bs, k, 682)[j].depth < 5 <==> j < 170 { DepthsAre(j); }
    forall p | 0 <= p < 682 ensures p < |Explored(h, bs, k, p)| { GrowsByFour(h, bs, k, ps, p); }
  }

  /** A hash under which every key may live in buckets 0 and 1 alone. */
  function Crowding(): (h: Hash) {
    (seed: nat, k: Key) => if seed == 0xe2211e2211 then Word(0, 1, 0) else Word(k % 4, 0, 0)
  }

  function Crowded(first: Key): (c: Bucket)
    requires first < 100
    ensures WellShaped(c) && forall s :: 0 <= s < 4 ==> c.occupied[s] && c.keys[s] == first + s
  {
    Bucket(0, [true, true, true, true], [first, first + 1, first + 2, first + 3], [0, 0, 0, 0])
  }

  function CrowdedBucket(i: nat): (c: Bucket)
    ensures WellShaped(c)
  {
    if i == 0 then Crowded(0) else if i == 1 then Crowded(4) else EMPTY_BUCKET
  }

  function CrowdedBuckets(): (bs: Buckets)
    ensures |bs| == 64 && forall i :: 0 <= i < 64 ==> bs[i] == CrowdedBucket(i)
  {
    seq(64, i requires 0 <= i => CrowdedBucket(i))
  }

  function CrowdedPlaces(): (at: Places) {
    map k: Key | k < 8 :: Pos(k / 4, k % 4)
  }

  lemma CrowdedCandidates(k: Key, which: Bit)
    ensures Candidate(Crowding(), k, which, 64) == which
  {
  }

  /** A valid table of 64 buckets in which the search for a new key spends its whole budget: the bounds of 682 queued
      and 170 expanded entries are attained. */
  lemma BudgetIsTight()
    ensures var h, bs, at := Crowding(), CrowdedBuckets(), CrowdedPlaces();
      var loc: Locator := map k | k in at :: at[k].bucket;
      && TableInv(h, bs, loc, at) && 8 !in at && FullAt(bs, 0) && FullAt(bs, 1) && NoDeadEnds(h, bs, 8, {0, 1})
  {
    var h, bs, at := Crowding(), CrowdedBuckets(), CrowdedPlaces();
    var loc: Locator := map k | k in at :: at[k].bucket;
    CrowdedIndexed();
    forall k: Key, i: Bit ensures Candidate(h, k, i, 64) == i { CrowdedCandidates(k, i); }
    hide Candidate;
    assert Located(h, 64, loc, at);
    forall b | 0 <= b < |bs| ensures bs[b].seed < 255 && CollisionFree(h, bs[b], bs[b].seed) { CrowdedSeeds(b); }
    assert bs[0] == CrowdedBucket(0) && bs[1] == CrowdedBucket(1);
  }

  lemma CrowdedSeeds(b: nat)
    ensures CrowdedBucket(b).seed == 0 && CollisionFree(Crowding(), CrowdedBucket(b), 0)
  {
    var h, c := Crowding(), CrowdedBucket(b);
    forall s, t | 0 <= s < t < 4 && c.occupied[s] && c.occupied[t]
      ensures SlotOf(h, 0, c.keys[s]) != SlotOf(h, 0, c.keys[t])
    {
      KeepsSlot(if b == 0 then 0 else 4, s);
      KeepsSlot(if b == 0 then 0 else 4, t);
    }
  }

  lemma KeepsSlot(first: Key, s: nat)
    requires first % 4 == 0 && first < 100 && s < 4
    ensures SlotOf(Crowding(), 0, first + s) == s
  {
  }

  lemma CrowdedIndexed()
    ensures AllWellShaped(CrowdedBuckets()) && Indexed(CrowdedBuckets(), CrowdedPlaces())
  {
    var bs, at := CrowdedBuckets(), CrowdedPlaces();
    forall k | k in at ensures Has(bs, at[k].bucket, at[k].slot, k) {
      assert bs[at[k].bucket] == CrowdedBucket(at[k].bucket);
    }
    forall b: nat, s: nat, k: Key | Has(bs, b, s, k) ensures k in at && at[k] == Pos(b, s) {
      assert bs[b] == CrowdedBucket(b);
      assert b < 2 && k == 4 * b + s;
    }
  }

  // ----- expanding one entry -----

  /** While the entry at `p` is expanded: the moves of the slots in `done` are queued, `left` slots remain. */
  ghost predicate Expanding(h: Hash, bs: Buckets, k: Key, seen0: seq<Entry>, seen: seq<Entry>, p: nat,
      done: set<nat>, left: nat) {
    && SearchInv(h, bs, k, seen, p) && p < |seen0| && seen0 <= seen
    && (forall j :: |seen0| <= j < |seen| ==> seen[j].parent == p)
    && |seen| + PendingPushes(seen, p + 1) + PushRoom(left, seen[p].depth + 1) <= 682
    && PendingVisits(seen, p + 1) + VisitRoom(left, seen[p].depth + 1)
       <= PendingVisits(seen0, p + 1) + VisitRoom(4, seen[p].depth + 1)
    && (forall s :: s in done ==> MovesQueued(h, bs, seen, seen[p], s))
  }

  /** The entries queued for a bucket whose keys may move to the buckets `moves`, for the first `n` slots tried. */
  function Children(e: Entry, p: nat, start: SlotIndex, moves: seq<nat>, n: nat): (r: seq<Entry>)
    requires n <= |moves|
    ensures |r| <= n
  {
    if n == 0 then []
    else
      Children(e, p, start, moves, n - 1) +
      if moves[n - 1] == e.bucket then [] else [Entry(moves[n - 1], e.depth + 1, p, SlotAt(start, n - 1))]
  }

  lemma {:induction false} ChildrenFrame(e: Entry, p: nat, start: SlotIndex, moves: seq<nat>, y: nat, n: nat)
    requires n <= |moves|
    ensures Children(e, p, start, moves + [y], n) == Children(e, p, start, moves, n)
  {
    if n > 0 { ChildrenFrame(e, p, start, moves, y, n - 1); }
  }

  ghost predicate LegalMove(h: Hash, bs: Buckets, x: nat, slot: nat, y: nat)
    requires |bs| > 0 && AllWellShaped(bs) && x < |bs| && slot < 4
  {
    OnlyMove(h, bs, x, slot, y) && (y != x ==> Edge(h, bs, x, slot, y))
  }

  ghost predicate LegalMoves(h: Hash, bs: Buckets, x: nat, start: SlotIndex, moves: seq<nat>)
    requires |bs| > 0 && AllWellShaped(bs) && x < |bs|
  {
    forall i :: 0 <= i < |moves| ==> LegalMove(h, bs, x, SlotAt(start, i), moves[i])
  }

  /** One more slot tried: `q` is the queue before the bucket was expanded. */
  lemma MovesGrow(h: Hash, bs: Buckets, e: Entry, p: nat, start: SlotIndex, moves: seq<nat>, y: nat, q: seq<Entry>)
    requires |bs| > 0 && AllWellShaped(bs) && e.bucket < |bs|
    requires LegalMoves(h, bs, e.bucket, start, moves) && LegalMove(h, bs, e.bucket, SlotAt(start, |moves|), y)
    ensures LegalMoves(h, bs, e.bucket, start, moves + [y])
    ensures q + Children(e, p, start, moves + [y], |moves| + 1)
         == q + Children(e, p, start, moves, |moves|) + if y == e.bucket then []
             else [Entry(y, e.depth + 1, p, SlotAt(start, |moves|))]
  {
    ChildrenFrame(e, p, start, moves, y, |moves|);
    forall i | 0 <= i < |moves| + 1 ensures LegalMove(h, bs, e.bucket, SlotAt(start, i), (moves + [y])[i]) {
      if i < |moves| { assert LegalMove(h, bs, e.bucket, SlotAt(start, i), moves[i]); }
    }
  }

  lemma ExpandStep(h: Hash, bs: Buckets, k: Key, seen0: seq<Entry>, seen: seq<Entry>, p: nat, done: set<nat>,
      left: nat, slot: nat, y: nat)
    requires Expanding(h, bs, k, seen0, seen, p, done, left) && left > 0 && slot < 4
    requires seen[p].depth < MAX_DEPTH && FullAt(bs, seen[p].bucket)
    requires LegalMove(h, bs, seen[p].bucket, slot, y)
    ensures Expanding(h, bs, k, seen0, if y == seen[p].bucket then seen else seen + [ChildEntry(seen, p, slot, y)], p,
              done + {slot}, left - 1)
  {
    QueueSlot(h, bs, k, seen, p, slot, y);
    var seen1 := if y == seen[p].bucket then seen else seen + [ChildEntry(seen, p, slot, y)];
    forall s | s in done + {slot} ensures MovesQueued(h, bs, seen1, seen1[p], s) {
      if s != slot { assert MovesQueued(h, bs, seen, seen[p], s); }
    }
  }

  /** Queueing the moves of the first slots expands the entry that far, within its budget. */
  lemma {:induction false} ExpandAll(h: Hash, bs: Buckets, k: Key, seen: seq<Entry>, p: nat, start: SlotIndex,
      moves: seq<nat>, n: nat)
    requires p < |seen| && Expanding(h, bs, k, seen, seen, p, {}, 4) && n <= |moves| == 4
    requires seen[p].depth < MAX_DEPTH && FullAt(bs, seen[p].bucket)
    requires LegalMoves(h, bs, seen[p].bucket, start, moves)
    ensures Expanding(h, bs, k, seen, seen + Children(seen[p], p, start, moves, n), p, SlotsFrom(start, n), 4 - n)
  {
    if n == 0 {
      assert seen + [] == seen;
    } else {
      ExpandAll(h, bs, k, seen, p, start, moves, n - 1);
      var now := seen + Children(seen[p], p, start, moves, n - 1);
      assert LegalMove(h, bs, now[p].bucket, SlotAt(start, n - 1), moves[n - 1]);
      ExpandStep(h, bs, k, seen, now, p, SlotsFrom(start, n - 1), 5 - n, SlotAt(start, n - 1), moves[n - 1]);
      ChildrenGrow(seen, p, start, moves, n);
    }
  }

  lemma ChildrenGrow(seen: seq<Entry>, p: nat, start: SlotIndex, moves: seq<nat>, n: nat)
    requires p < |seen| && 0 < n <= |moves|
    ensures var now := seen + Children(seen[p], p, start, moves, n - 1);
      seen + Children(seen[p], p, start, moves, n)
      == if moves[n - 1] == seen[p].bucket then now else now + [ChildEntry(now, p, SlotAt(start, n - 1), moves[n - 1])]
  {
  }

  /** The first `i` slots in cyclic order from `start`. */
  function SlotsFrom(start: SlotIndex, i: nat): set<nat> {
    if i == 0 then {} else SlotsFrom(start, i - 1) + {SlotAt(start, i - 1)}
  }

  lemma FourSlotsAreAll(start: SlotIndex)
    ensures SlotsFrom(start, 4) == {0, 1, 2, 3}
  {
    assert SlotsFrom(start, 1) == SlotsFrom(start, 0) + {start};
    assert SlotsFrom(start, 2) == SlotsFrom(start, 1) + {SlotAt(start, 1)};
    assert SlotsFrom(start, 3) == SlotsFrom(start, 2) + {SlotAt(start, 2)};
    assert SlotsFrom(start, 4) == SlotsFrom(start, 3) + {SlotAt(start, 3)};
  }

  lemma ExpandDone(h: Hash, bs: Buckets, k: Key, seen0: seq<Entry>, seen: seq<Entry>, p: nat)
    requires Expanding(h, bs, k, seen0, seen, p, {0, 1, 2, 3}, 0) && FullAt(bs, seen[p].bucket)
    ensures SearchInv(h, bs, k, seen, p + 1)
  {
    assert forall s: nat, y: nat :: Edge(h, bs, seen[p].bucket, s, y) ==> MovesQueued(h, bs, seen, seen[p], s);
    PopKeeps(h, bs, k, seen, p);
  }

  /** The visited list holds the popped entries that were expanded, in order. */
  ghost predicate VisitedPrefix(visited: seq<Entry>, n: nat, seen: seq<Entry>, p: nat) {
    && n <= p <= |seen| && n <= |visited|
    && (forall i :: 0 <= i < n ==> visited[i] == seen[i])
    && (n < p ==> seen[p - 1].depth >= MAX_DEPTH)
    && (forall i :: 2 <= i < |seen| ==> seen[i].parent < n)
  }

  /** Every parent link can be followed in the visited list. */
  ghost predicate AncestorsVisited(visited: seq<Entry>, seen: seq<Entry>) {
    forall i :: 2 <= i < |seen| ==>
        0 <= seen[i].parent < |visited| && seen[i].parent < |seen| && visited[seen[i].parent] == seen[seen[i].parent]
  }

  /** Deepest entries come last, so everything popped so far was expanded. */
  lemma VisitedIsPopped(h: Hash, bs: Buckets, k: Key, visited: seq<Entry>, n: nat, seen: seq<Entry>, p: nat)
    requires SearchInv(h, bs, k, seen, p) && VisitedPrefix(visited, n, seen, p)
    requires p < |seen| && seen[p].depth < MAX_DEPTH
    ensures n == p
  {
    if p > 0 { assert InOrder(seen, p - 1, p); }
  }

  lemma ParentsAreVisited(h: Hash, bs: Buckets, k: Key, visited: seq<Entry>, n: nat, seen: seq<Entry>, p: nat)
    requires SearchInv(h, bs, k, seen, p) && VisitedPrefix(visited, n, seen, p)
    ensures AncestorsVisited(visited, seen)
  {
    forall i | 2 <= i < |seen|
      ensures 0 <= seen[i].parent < |visited| && seen[i].parent < |seen|
      ensures visited[seen[i].parent] == seen[seen[i].parent]
    {
      assert Derived(h, bs, k, seen, i);
    }
  }

  lemma VisitKeeps(visited: seq<Entry>, visited': seq<Entry>, seen: seq<Entry>, p: nat, start: SlotIndex,
      moves: seq<nat>)
    requires |moves| == 4
    requires VisitedPrefix(visited, p, seen, p) && p < |seen| && p < |visited| == |visited'|
    requires visited' == visited[p := seen[p]]
    ensures VisitedPrefix(visited', p + 1, seen + Children(seen[p], p, start, moves, 4), p + 1)
  {
    ChildrenShareParent(seen[p], p, start, moves, 4);
  }

  lemma {:induction false} ChildrenShareParent(e: Entry, p: nat, start: SlotIndex, moves: seq<nat>, n: nat)
    requires n <= |moves|
    ensures forall c :: c in Children(e, p, start, moves, n) ==> c.parent == p
  {
    if n > 0 {
      ChildrenShareParent(e, p, start, moves, n - 1);
    }
  }

  /** What holds each time the search looks at its queue: `p` entries popped, `n` of them expanded. */
  ghost predicate Searching(h: Hash, bs: Buckets, k: Key, seen: seq<Entry>, p: nat, visited: seq<Entry>, n: nat) {
    SearchInv(h, bs, k, seen, p) && WithinBudget(seen, p, n) && VisitedPrefix(visited, n, seen, p)
  }

  lemma StartSearching(h: Hash, bs: Buckets, k: Key, visited: seq<Entry>)
    requires |bs| > 0 && AllWellShaped(bs)
    ensures Searching(h, bs, k, Roots(h, k, |bs|), 0, visited, 0)
  {
    RootsStart(h, bs, k);
    RootsWithinBudget(Roots(h, k, |bs|));
  }

  /** Before a full bucket is expanded: its place in the visited list, and room for its children. */
  lemma ReadyToExpand(h: Hash, bs: Buckets, k: Key, seen: seq<Entry>, p: nat, visited: seq<Entry>, n: nat)
    requires Searching(h, bs, k, seen, p, visited, n) && p < |seen| && seen[p].depth < MAX_DEPTH
    ensures n == p < 170 && |seen| <= 682 && Expanding(h, bs, k, seen, seen, p, {}, 4)
  {
    VisitedIsPopped(h, bs, k, visited, n, seen, p);
    assert Derived(h, bs, k, seen, p);
    RoomForFour(seen[p].depth);
  }

  lemma ExpandSearching(h: Hash, bs: Buckets, k: Key, seen: seq<Entry>, p: nat, visited: seq<Entry>,
      visited': seq<Entry>, start: SlotIndex, moves: seq<nat>)
    requires Searching(h, bs, k, seen, p, visited, p) && p < |seen| && seen[p].depth < MAX_DEPTH
    requires FullAt(bs, seen[p].bucket) && |moves| == 4 && LegalMoves(h, bs, seen[p].bucket, start, moves)
    requires p < |visited| == |visited'| && visited' == visited[p := seen[p]]
    ensures Searching(h, bs, k, seen + Children(seen[p], p, start, moves, 4), p + 1, visited', p + 1)
  {
    ReadyToExpand(h, bs, k, seen, p, visited, p);
    RoomForFour(seen[p].depth);
    ExpandAll(h, bs, k, seen, p, start, moves, 4);
    FourSlotsAreAll(start);
    ExpandDone(h, bs, k, seen, seen + Children(seen[p], p, start, moves, 4), p);
    VisitKeeps(visited, visited', seen, p, start, moves);
  }

  lemma DropSearching(h: Hash, bs: Buckets, k: Key, seen: seq<Entry>, p: nat, visited: seq<Entry>, n: nat)
    requires Searching(h, bs, k, seen, p, visited, n) && p < |seen| && seen[p].depth >= MAX_DEPTH
    requires FullAt(bs, seen[p].bucket)
    ensures Searching(h, bs, k, seen, p + 1, visited, n)
  {
    PopKeeps(h, bs, k, seen, p);
  }

  lemma PopSuffix(e: Entry, rest: seq<Entry>, seen: seq<Entry>, p: nat)
    requires p < |seen| && [e] + rest == seen[p..]
    ensures e == seen[p] && rest == seen[p + 1..]
  {
    assert ([e] + rest)[0] == e;
    assert seen[p + 1..] == seen[p..][1..];
    assert rest == ([e] + rest)[1..];
  }

  /** Index of the `i`-th pending entry of a circular queue whose front is at `head`. */
  function Wrap(head: nat, i: nat): nat {
    if head + i < QUEUE_SIZE then head + i else head + i - QUEUE_SIZE
  }

  /** The circular queue of path entries. `head == tail` means empty, so it holds one entry less than its array. */
  class PathQueue {
    const slots: array<Entry>
    var head: nat
    var tail: nat
    /** The queued entries, front first. */
    ghost var pending: seq<Entry>

    ghost predicate Holds(i: nat)
      requires slots.Length == QUEUE_SIZE && head < QUEUE_SIZE && i < |pending| < QUEUE_SIZE
      reads this, slots
    {
      slots[Wrap(head, i)] == pending[i]
    }

    ghost predicate Valid()
      reads this, slots
    {
      && slots.Length == QUEUE_SIZE && head < QUEUE_SIZE
      && |pending| < QUEUE_SIZE && tail == Wrap(head, |pending|)
      && forall i :: 0 <= i < |pending| ==> Holds(i)
    }

    constructor ()
      ensures Valid() && pending == [] && fresh(slots)
    {
      slots := new Entry[QUEUE_SIZE](_ => Entry(0, 0, -1, -1));
      head, tail, pending := 0, 0, [];
    }

    method Reset()
      requires Valid()
      modifies this
      ensures Valid() && pending == []
    {
      head, tail, pending := 0, 0, [];
    }

    method IsEmpty() returns (r: bool)
      requires Valid()
      ensures r <==> pending == []
    {
      r := head == tail;
    }

    method PushBack(e: Entry)
      requires Valid() && |pending| + 1 < QUEUE_SIZE
      modifies this, slots
      ensures Valid() && pending == old(pending) + [e]
    {
      slots[tail] := e;
      tail := (tail + 1) % QUEUE_SIZE;
      pending := pending + [e];
      forall i | 0 <= i < |pending| ensures Holds(i) {
        assert i < |old(pending)| ==> old(Holds(i));
      }
    }

    method PopFront() returns (e: Entry)
      requires Valid() && pending != []
      modifies this
      ensures Valid() && [e] + pending == old(pending)
    {
      assert Holds(0);
      e := slots[head];
      head := (head + 1) % QUEUE_SIZE;
      pending := pending[1..];
      forall i | 0 <= i < |pending| ensures Holds(i) {
        assert old(Holds(i + 1));
      }
    }
  }
}
