/** The Ludo control plane: a 4-way, 2-choice cuckoo table with BFS insertion, one locator bit per
    key and one seed per bucket, grown by powers of two. */
module LudoControlPlane {
  import opened Hashing
  import opened LudoTable
  import opened LudoSearch
  import opened LudoGrowth

  /** Outcome of an insertion. `NoPath` is the point where the table would be rehashed with a new
      hash seed; `SeedExhausted` is the exception of the seed search. */
  datatype Status = Inserted | InsertedAfterGrowth | Updated | NoPath | SeedExhausted {
    predicate Stored() {
      Inserted? || InsertedAfterGrowth? || Updated?
    }
  }

  datatype Operation = Insert(key: Key, value: Value) | ChangeValue(key: Key, value: Value) | Remove(key: Key)

  /** What an operation does to the key-value map. */
  function Apply(m: map<Key, Value>, op: Operation): map<Key, Value> {
    match op
    case Insert(k, v) => m[k := v]
    case ChangeValue(k, v) => if k in m then m[k := v] else m
    case Remove(k) => m - {k}
  }

  function ApplyAll(m: map<Key, Value>, ops: seq<Operation>): map<Key, Value> {
    if ops == [] then m else Apply(ApplyAll(m, ops[..|ops| - 1]), ops[|ops| - 1])
  }

  /** Number of keys a table of `n` buckets accepts before it grows. The source computes
      `n * loadFactor * 4` in floating point; only monotonicity and unboundedness matter. */
  type Capacity = nat -> nat

  ghost predicate Suitable(room: Capacity) {
    && (forall m: nat, n: nat :: m <= n ==> room(m) <= room(n))
    && (forall target: nat :: Reachable(room, target))
  }

  ghost predicate Reachable(room: Capacity, target: nat) {
    exists n: nat :: room(n) >= target
  }

  function AtLoadFactor(loadFactor: real): Capacity
    requires loadFactor > 0.0
  {
    n => Scaled(n, loadFactor)
  }

  function Scaled(n: nat, loadFactor: real): nat
    requires loadFactor > 0.0
  {
    var r := n as real * loadFactor * 4.0;
    assert r >= 0.0;
    r.Floor
  }

  lemma ScaledMonotone(m: nat, n: nat, loadFactor: real)
    requires loadFactor > 0.0 && m <= n
    ensures Scaled(m, loadFactor) <= Scaled(n, loadFactor)
  {
    assert m as real * loadFactor <= n as real * loadFactor;
  }

  lemma ScaledReaches(target: nat, loadFactor: real) returns (n: nat)
    requires loadFactor > 0.0
    ensures Scaled(n, loadFactor) >= target
  {
    var q := target as real / (loadFactor * 4.0);
    n := q.Floor + 1;
    assert n as real > q;
    assert n as real * (loadFactor * 4.0) >= q * (loadFactor * 4.0) == target as real;
    assert n as real * loadFactor * 4.0 == n as real * (loadFactor * 4.0);
  }

  /** Every positive load factor gives a suitable capacity: that share of four keys to a bucket, rounded down. */
  lemma LoadFactorIsSuitable(loadFactor: real)
    requires loadFactor > 0.0
    ensures Suitable(AtLoadFactor(loadFactor))
    ensures forall n: nat :: var c := AtLoadFactor(loadFactor)(n);
      c as real <= (4 * n) as real * loadFactor < (c + 1) as real
  {
    forall n: nat ensures n as real * loadFactor * 4.0 == (4 * n) as real * loadFactor { }
    var room := AtLoadFactor(loadFactor);
    forall m: nat, n: nat | m <= n ensures room(m) <= room(n) {
      ScaledMonotone(m, n, loadFactor);
    }
    forall target: nat ensures Reachable(room, target) {
      var n := ScaledReaches(target, loadFactor);
      assert room(n) >= target;
    }
  }

  /** The least power of two from 64 up with the capacity. */
  ghost predicate SmallestSize(room: Capacity, target: nat, n: nat) {
    PowerOfTwo(n) && n >= 64 && room(n) >= target && (n > 64 ==> room(n / 2) < target)
  }

  /** Doubling from 64 until the capacity suffices. */
  method ChooseSize(room: Capacity, target: nat) returns (n: nat)
    requires Suitable(room)
    ensures SmallestSize(room, target, n)
  {
    n := 64;
    assert PowerOfTwo(64) by {
      assert PowerOfTwo(1) && PowerOfTwo(2) && PowerOfTwo(4) && PowerOfTwo(8) && PowerOfTwo(16) && PowerOfTwo(32);
    }
    assert Reachable(room, target);
    ghost var enough: nat :| room(enough) >= target;
    while room(n) < target
      invariant PowerOfTwo(n) && n >= 64
      invariant n > 64 ==> room(n / 2) < target
      decreases enough - n
    {
      assert n < enough;
      n := n * 2;
    }
  }

  lemma OneMoreKey(at: Places, at': Places, k: Key)
    requires k !in at && at'.Keys == at.Keys + {k}
    ensures |at'| == |at| + 1
  {
    assert |at.Keys| == |at| && |at'.Keys| == |at'|;
  }

  lemma OneKeyLess(at: Places, k: Key)
    requires k in at
    ensures |at - {k}| == |at| - 1
  {
    var at' := at - {k};
    assert at'.Keys == at.Keys - {k};
    assert |at.Keys| == |at| && |at'.Keys| == |at'|;
  }

  /** Slot `s` is the first one of the bucket that is not occupied. */
  predicate FirstFree(c: Bucket, s: int)
    requires WellShaped(c)
  {
    0 <= s < 4 && !c.occupied[s] && forall t :: 0 <= t < s ==> c.occupied[t]
  }

  /** The search finds entry `p`, the first whose bucket has room, in slot `slot`. */
  ghost predicate FoundPath(h: Hash, bs: Buckets, k: Key, seen: seq<Entry>, p: nat, slot: nat) {
    FoundAt(h, bs, k, seen, p) && FirstFree(bs[seen[p].bucket], slot)
  }

  /** The path that ends at the found entry `p` fits from entry `c` up. */
  ghost predicate FitsFrom(h: Hash, bs: Buckets, k: Key, seen: seq<Entry>, p: nat, c: nat, slot: nat) {
    SearchInv(h, bs, k, seen, p) && c < |seen| && slot < 4 && PathFits(h, bs, k, seen, c, slot)
  }

  /** One step up the path. */
  lemma StepFits(h: Hash, bs: Buckets, k: Key, seen: seq<Entry>, p: nat, c: nat, slot: nat)
    requires SearchInv(h, bs, k, seen, p) && c < |seen| && seen[c].depth > 1 && slot < 4
    ensures c >= 2 && 0 <= seen[c].parent < |seen| && 0 <= seen[c].parentSlot < 4 && seen[c].bucket < |bs|
    ensures FitsFrom(h, bs, k, seen, p, c, slot) <==>
      Separable(h, Filled(bs[seen[c].bucket], slot, Incoming(h, bs, k, seen, c), 0, 0))
      && FitsFrom(h, bs, k, seen, p, seen[c].parent, seen[c].parentSlot)
  {
    assert Derived(h, bs, k, seen, c);
  }

  /** The new key at the root. */
  lemma RootFits(h: Hash, bs: Buckets, now: Buckets, k: Key, v: Value, seen: seq<Entry>, p: nat, c: nat, slot: nat)
    requires SearchInv(h, bs, k, seen, p) && c < 2 && slot < 4 && c < |seen|
    requires AllWellShaped(now) && OnlySlotTaken(bs, now, seen[c].bucket, slot)
    ensures Separable(h, Filled(now[seen[c].bucket], slot, k, v, 0)) <==> FitsFrom(h, bs, k, seen, p, c, slot)
  {
    SameKeysSameSeeds(h, Filled(now[seen[c].bucket], slot, k, v, 0), Filled(bs[seen[c].bucket], slot, k, 0, 0));
  }

  // ----- when a key can be placed -----

  /** The first free slot of the bucket can take the key. */
  ghost predicate TakesKey(h: Hash, c: Bucket, k: Key)
    requires WellShaped(c)
  {
    exists s :: FirstFree(c, s) && Separable(h, Filled(c, s, k, 0, 0))
  }

  /** What a caller can tell from the table: the first candidate with room can be separated with the key, or neither has
      room and the path that the search finds fits. */
  ghost predicate Placeable(h: Hash, bs: Buckets, k: Key)
    requires |bs| > 0 && AllWellShaped(bs)
  {
    var first, second := Candidate(h, k, 0, |bs|), Candidate(h, k, 1, |bs|);
    if !FullAt(bs, first) then TakesKey(h, bs[first], k)
    else if !FullAt(bs, second) then TakesKey(h, bs[second], k)
    else exists seen, p, slot :: FoundPath(h, bs, k, seen, p, slot) && FitsFrom(h, bs, k, seen, p, p, slot)
  }

  lemma FirstFreeDecides(h: Hash, c: Bucket, s: nat, k: Key, v: Value)
    requires WellShaped(c) && FirstFree(c, s)
    ensures TakesKey(h, c, k) <==> Separable(h, Filled(c, s, k, v, 0))
  {
    SameKeysSameSeeds(h, Filled(c, s, k, v, 0), Filled(c, s, k, 0, 0));
  }

  /** The path found decides, for the search finds only one. */
  lemma PathDecides(h: Hash, bs: Buckets, k: Key, seen: seq<Entry>, p: nat, slot: nat)
    requires |bs| > 0 && AllWellShaped(bs) && FoundPath(h, bs, k, seen, p, slot)
    requires FullAt(bs, Candidate(h, k, 0, |bs|)) && FullAt(bs, Candidate(h, k, 1, |bs|))
    ensures Placeable(h, bs, k) <==> FitsFrom(h, bs, k, seen, p, p, slot)
  {
    hide FoundAt, FitsFrom;
    forall seen', p', slot' | FoundPath(h, bs, k, seen', p', slot') ensures seen' == seen && p' == p && slot' == slot {
      OnlyOnePath(h, bs, k, seen, p, seen', p');
    }
  }

  /** A candidate with room decides, the first one before the second. */
  lemma CandidateDecides(h: Hash, bs: Buckets, k: Key, v: Value, b: nat, s: nat)
    requires |bs| > 0 && AllWellShaped(bs) && b < |bs| && FirstFree(bs[b], s)
    requires b == Candidate(h, k, 0, |bs|) || (b == Candidate(h, k, 1, |bs|) && FullAt(bs, Candidate(h, k, 0, |bs|)))
    ensures Placeable(h, bs, k) <==> Separable(h, Filled(bs[b], s, k, v, 0))
  {
    hide FoundPath, FitsFrom, Separable, TakesKey;
    FirstFreeDecides(h, bs[b], s, k, v);
  }

  /** A valid table, not yet at capacity, in which a new key cannot be placed, and why. */
  ghost predicate Stuck(h: Hash, room: Capacity, bs: Buckets, loc: Locator, at: Places, k: Key, why: Status) {
    && TableInv(h, bs, loc, at) && k !in at
    && PowerOfTwo(|bs|) && |at| < room(|bs|)
    && (why.NoPath? || why.SeedExhausted?)
    && (why.NoPath? <==> NothingInReach(h, bs, k)) && !Placeable(h, bs, k)
  }

  lemma StuckShape(h: Hash, room: Capacity, bs: Buckets, loc: Locator, at: Places, k: Key, why: Status)
    requires Stuck(h, room, bs, loc, at, k, why)
    ensures TableInv(h, bs, loc, at) && Indexed(bs, at)
  {
  }

  lemma OutcomesExclude(h: Hash, bs: Buckets, k: Key)
    requires |bs| > 0 && AllWellShaped(bs)
    ensures !(NothingInReach(h, bs, k) && Placeable(h, bs, k))
  {
    hide NothingInReach, Placeable;
    if NothingInReach(h, bs, k) { OutOfReach(h, bs, k); }
  }

  lemma TableShape(h: Hash, bs: Buckets, loc: Locator, at: Places)
    requires TableInv(h, bs, loc, at)
    ensures |bs| > 0 && AllWellShaped(bs) && Indexed(bs, at)
  {
  }

  lemma GrownShape(h: Hash, bs: Buckets, loc: Locator, at: Places, bs': Buckets, at': Places)
    requires GrownFrom(h, bs, loc, at, bs', at')
    ensures TableInv(h, bs', loc, at') && |bs'| > 0 && AllWellShaped(bs') && Indexed(bs', at')
    ensures at'.Keys == at.Keys
  {
  }

  /** Without a free slot in reach the key cannot be placed. */
  lemma OutOfReach(h: Hash, bs: Buckets, k: Key)
    requires |bs| > 0 && AllWellShaped(bs) && NothingInReach(h, bs, k)
    ensures FullAt(bs, Candidate(h, k, 0, |bs|)) && FullAt(bs, Candidate(h, k, 1, |bs|))
    ensures !Placeable(h, bs, k)
  {
    hide NothingInReach, SearchInv, Explored, FitsFrom;
    if !FullAt(bs, Candidate(h, k, 0, |bs|)) { CandidateInReach(h, bs, k, Candidate(h, k, 0, |bs|)); }
    if !FullAt(bs, Candidate(h, k, 1, |bs|)) { CandidateInReach(h, bs, k, Candidate(h, k, 1, |bs|)); }
    forall seen, p, slot ensures !FoundPath(h, bs, k, seen, p, slot) {
      if FoundPath(h, bs, k, seen, p, slot) { FoundIsInReach(h, bs, k, seen, p); }
    }
  }

  function Largest(a: nat, b: nat, c: nat): (r: nat)
    ensures r >= a && r >= b && r >= c && (r == a || r == b || r == c)
  {
    var m := if b > c then b else c;
    if a > m then a else m
  }

  lemma GrowingShape(h: Hash, bs: Buckets, loc: Locator, at: Places, at0: Places, m: map<Key, Value>, oldSize: nat,
      bucket: nat, slot: nat)
    requires Growing(h, bs, loc, at, at0, m, oldSize, bucket, slot)
    ensures AllWellShaped(bs) && Indexed(bs, at) && at.Keys == at0.Keys && Contents(bs, at) == m
  {
  }

  /** The table after a growth: same locator and map, every key in its slot, its bucket the same modulo the old size. */
  ghost predicate GrownFrom(h: Hash, bs: Buckets, loc: Locator, at: Places, bs': Buckets, at': Places) {
    && TableInv(h, bs, loc, at) && TableInv(h, bs', loc, at')
    && at'.Keys == at.Keys && Contents(bs', at') == Contents(bs, at)
    && forall k :: k in at ==> at'[k].slot == at[k].slot && Masked(at'[k].bucket, |bs|) == at[k].bucket
  }

  /** When both candidates are full, the entry found is not a root. */
  lemma RootsAreFull(h: Hash, bs: Buckets, k: Key, seen: seq<Entry>, p: nat)
    requires SearchInv(h, bs, k, seen, p) && p < |seen| && !FullAt(bs, seen[p].bucket)
    requires FullAt(bs, Candidate(h, k, 0, |bs|)) && FullAt(bs, Candidate(h, k, 1, |bs|))
    ensures p >= 2
  {
    assert Derived(h, bs, k, seen, p);
  }

  /** A candidate with a free slot is in reach. */
  lemma CandidateInReach(h: Hash, bs: Buckets, k: Key, b: nat)
    requires |bs| > 0 && AllWellShaped(bs) && b < |bs| && !FullAt(bs, b)
    requires b == Candidate(h, k, 0, |bs|) || b == Candidate(h, k, 1, |bs|)
    ensures !NothingInReach(h, bs, k)
  {
    assert Walk(h, bs, [b]) && [b][0] == b;
  }

  class ControlPlane {
    const hash: Hash
    const room: Capacity
    const queue: PathQueue
    const visited: array<Entry>
    var numBuckets: nat
    var capacity: nat
    var nKeys: nat
    var buckets: Buckets
    /** The Othello locator, as the map from key to bit that it maintains. */
    var locator: Locator
    /** Where each stored key lives. */
    ghost var at: Places

    ghost predicate BuffersValid()
      reads queue, queue.slots
    {
      queue.Valid() && visited.Length == VISITED_SIZE && visited != queue.slots
    }

    ghost predicate Valid()
      reads this, queue, queue.slots
    {
      && BuffersValid()
      && Suitable(room)
      && numBuckets == |buckets| && PowerOfTwo(numBuckets)
      && capacity == room(numBuckets)
      && TableInv(hash, buckets, locator, at)
      && nKeys == |at|
    }

    /** The key-value map. */
    ghost function Map(): map<Key, Value>
      requires Valid()
      reads this, queue, queue.slots
    {
      Contents(buckets, at)
    }

    constructor (hash: Hash, room: Capacity, wanted: nat)
      requires Suitable(room)
      ensures Valid() && Map() == map[] && capacity >= wanted && SmallestSize(room, wanted, numBuckets)
      ensures this.hash == hash && this.room == room
      ensures fresh(queue) && fresh(queue.slots) && fresh(visited)
    {
      this.hash := hash;
      this.room := room;
      var n := ChooseSize(room, wanted);
      numBuckets, capacity, nKeys := n, room(n), 0;
      buckets := seq(n, _ => EMPTY_BUCKET);
      locator, at := map[], map[];
      queue := new PathQueue();
      visited := new Entry[VISITED_SIZE](_ => Entry(0, 0, -1, -1));
    }

    // ----- look-up -----

    /** Where the key is stored; only its two candidate buckets are read. */
    method Locate(k: Key) returns (found: bool, b: nat, s: nat)
      requires Valid()
      ensures found <==> k in at
      ensures found ==> at[k] == Pos(b, s)
    {
      b, s := 0, 0;
      assert k in at ==> Has(buckets, at[k].bucket, at[k].slot, k);
      for i := 0 to 2
        invariant forall j: Bit :: j < i ==> forall t :: !Has(buckets, Candidate(hash, k, j, |buckets|), t, k)
      {
        b := Candidate(hash, k, i, |buckets|);
        var slot := FindInBucket(buckets[b], k);
        if slot >= 0 {
          assert Has(buckets, b, slot, k);
          return true, b, slot;
        }
      }
      found := false;
    }

    method LookUp(k: Key) returns (found: bool, v: Value)
      requires Valid()
      ensures found <==> k in Map()
      ensures found ==> v == Map()[k]
    {
      var b, s;
      found, b, s := Locate(k);
      v := 0;
      if found {
        assert Has(buckets, b, s, k);
        v := buckets[b].values[s];
      }
    }

    // ----- seeds, single moves -----

    /** Gives the bucket the smallest seed that separates its keys; -1 when no seed below 255 does. */
    method UpdateSeed(b: nat) returns (seed: int)
      requires AllWellShaped(buckets) && b < |buckets|
      modifies this`buckets
      ensures -1 <= seed < 255
      ensures seed >= 0 ==> CollisionFree(hash, old(buckets)[b], seed)
                            && buckets == old(buckets)[b := old(buckets)[b].(seed := seed)]
                            && forall t :: 0 <= t < seed ==> !CollisionFree(hash, old(buckets)[b], t)
      ensures seed == -1 ==> buckets == old(buckets)
      ensures seed == -1 <==> !Separable(hash, old(buckets)[b])
    {
      seed := FindSeed(hash, buckets[b]);
      if seed >= 0 {
        buckets := buckets[b := buckets[b].(seed := seed)];
      }
    }

    /** Stores a new key in the hole at slot `s` of bucket `b`. */
    method PutItem(k: Key, v: Value, b: nat, s: nat, toFirstBucket: bool) returns (ok: bool)
      requires AllWellShaped(buckets) && b < |buckets| && s < 4
      requires TableInv(hash, WithHole(buckets, b, s), locator, at)
      requires k !in at
      requires b == Candidate(hash, k, if toFirstBucket then 0 else 1, |buckets|)
      modifies this`buckets, this`locator, this`at
      ensures ok ==> TableInv(hash, buckets, locator, at)
                     && at == old(at)[k := Pos(b, s)]
                     && |buckets| == |old(buckets)|
                     && Contents(buckets, at) == Contents(WithHole(old(buckets), b, s), old(at))[k := v]
      ensures ok <==> Separable(hash, Filled(old(buckets)[b], s, k, v, 0))
    {
      hide TableInv, CollisionFree;
      ghost var holed := WithHole(buckets, b, s);
      ghost var loc0, at0 := locator, at;
      var bit: Bit := if toFirstBucket then 0 else 1;
      locator := locator[k := bit];
      var c := Filled(buckets[b], s, k, v, buckets[b].seed);
      SameKeysSameSeeds(hash, c, Filled(buckets[b], s, k, v, 0));
      buckets := buckets[b := c];
      var seed := UpdateSeed(b);
      ok := seed >= 0;
      if ok {
        assert Filled(holed[b], s, k, v, seed) == c.(seed := seed);
        FillKeeps(hash, holed, loc0, at0, b, s, k, v, bit, seed);
        assert buckets == holed[b := c.(seed := seed)];
        at := at[k := Pos(b, s)];
      }
    }

    /** Copies the key of the source slot into the hole and toggles its locator bit; the hole moves
        to the source slot and no other bucket changes. */
    method MoveItem(sBkt: nat, sSlot: nat, dBkt: nat, dSlot: nat) returns (ok: bool)
      requires AllWellShaped(buckets) && dBkt < |buckets| && dSlot < 4 && buckets[dBkt].occupied[dSlot]
      requires TableInv(hash, WithHole(buckets, dBkt, dSlot), locator, at)
      requires sSlot < 4 && sBkt < |buckets| && buckets[sBkt].occupied[sSlot]
      requires Edge(hash, buckets, sBkt, sSlot, dBkt)
      modifies this`buckets, this`locator, this`at
      ensures ok ==> |buckets| == |old(buckets)| && AllWellShaped(buckets)
      ensures ok ==> forall b :: 0 <= b < |buckets| && b != dBkt ==> buckets[b] == old(buckets)[b]
      ensures ok ==> TableInv(hash, WithHole(buckets, sBkt, sSlot), locator, at)
                     && at.Keys == old(at).Keys
                     && Contents(WithHole(buckets, sBkt, sSlot), at)
                        == Contents(WithHole(old(buckets), dBkt, dSlot), old(at))
      ensures var c := old(buckets)[sBkt];
        ok <==> Separable(hash, Filled(old(buckets)[dBkt], dSlot, c.keys[sSlot], c.values[sSlot], 0))
    {
      hide TableInv, CollisionFree, Separable;
      ghost var was, loc0, at0 := buckets, locator, at;
      var k, v := buckets[sBkt].keys[sSlot], buckets[sBkt].values[sSlot];
      var c := buckets[dBkt].(keys := buckets[dBkt].keys[dSlot := k], values := buckets[dBkt].values[dSlot := v]);
      StoredKeyIsRegistered(hash, WithHole(buckets, dBkt, dSlot), locator, at, sBkt, sSlot, k);
      SameKeysSameSeeds(hash, c, Filled(buckets[dBkt], dSlot, k, v, 0));
      buckets := buckets[dBkt := c];
      locator := locator[k := 1 - locator[k]];
      var seed := UpdateSeed(dBkt);
      ok := seed >= 0;
      if ok {
        at := at[k := Pos(dBkt, dSlot)];
        MovedBucket(was[dBkt], c, dSlot, k, v, seed, hash);
        assert buckets == was[dBkt := c.(seed := seed)];
        MoveHole(hash, was, loc0, at0, k, v, sBkt, sSlot, dBkt, dSlot, seed);
      }
    }

    // ----- cuckoo insertion -----

    /** Queues the other candidate bucket `y` of the key in one slot of a bucket; `y` is the bucket
        itself when the key has nowhere else to go. */
    method ExpandSlot(entry: Entry, p: nat, slot: nat) returns (ghost y: nat)
      requires BuffersValid() && |queue.pending| <= 682
      requires |buckets| > 0 && AllWellShaped(buckets) && entry.bucket < |buckets| && slot < 4
      requires var key := buckets[entry.bucket].keys[slot];
        entry.bucket == Candidate(hash, key, 0, |buckets|) || entry.bucket == Candidate(hash, key, 1, |buckets|)
      modifies queue, queue.slots
      ensures queue.Valid()
      ensures LegalMove(hash, buckets, entry.bucket, slot, y)
      ensures y == OtherCandidate(hash, buckets[entry.bucket].keys[slot], entry.bucket, |buckets|)
      ensures queue.pending == old(queue.pending) +
              if y == entry.bucket then [] else [Entry(y, entry.depth + 1, p, slot)]
    {
      var key := buckets[entry.bucket].keys[slot];
      y := entry.bucket;
      for j := 0 to 2
        invariant queue.Valid()
        invariant y == entry.bucket ==> queue.pending == old(queue.pending)
        invariant y != entry.bucket ==> queue.pending == old(queue.pending) + [Entry(y, entry.depth + 1, p, slot)]
        invariant j > 0 ==>
                  Candidate(hash, key, 0, |buckets|) == entry.bucket || Candidate(hash, key, 0, |buckets|) == y
        invariant j > 1 ==>
                  Candidate(hash, key, 1, |buckets|) == entry.bucket || Candidate(hash, key, 1, |buckets|) == y
        invariant j == 0 ==> y == entry.bucket
        invariant j == 1 && y != entry.bucket ==> y == Candidate(hash, key, 0, |buckets|)
        invariant y != entry.bucket ==>
                  y == Candidate(hash, key, 0, |buckets|) || y == Candidate(hash, key, 1, |buckets|)
      {
        var c := Candidate(hash, key, j, |buckets|);
        if c != entry.bucket {
          // The bucket is itself a candidate of the key, so at most one of the two is queued.
          assert y == entry.bucket;
          queue.PushBack(Entry(c, entry.depth + 1, p, slot));
          y := c;
        }
      }
    }

    /** Queues every move out of a full bucket, starting from a slot that depends on the entry. */
    method ExpandEntry(entry: Entry, p: nat) returns (ghost start: SlotIndex, ghost moves: seq<nat>)
      requires BuffersValid() && |queue.pending| <= 678
      requires |buckets| > 0 && AllWellShaped(buckets) && AtHome(hash, buckets, entry.bucket)
      modifies queue, queue.slots
      ensures queue.Valid() && |moves| == 4
      ensures LegalMoves(hash, buckets, entry.bucket, start, moves)
      ensures start == StartSlot(entry) && moves == Moves(hash, buckets, entry.bucket, start)
      ensures queue.pending == old(queue.pending) + Children(entry, p, start, moves, 4)
    {
      hide PathQueue.Valid, OtherCandidate, LegalMoves, LegalMove, Moves;
      var startSlot := (entry.depth + entry.bucket) % 4;
      start, moves := startSlot, [];
      NoMoves(hash, buckets, entry.bucket, start);
      for i := 0 to 4
        invariant queue.Valid() && |moves| == i
        invariant LegalMoves(hash, buckets, entry.bucket, start, moves)
        invariant moves == Moves(hash, buckets, entry.bucket, start)[..i]
        invariant queue.pending == old(queue.pending) + Children(entry, p, start, moves, i)
      {
        SlotAtIsModulo(startSlot, i);
        ghost var y := ExpandSlot(entry, p, (startSlot + i) % 4);
        MovesGrow(hash, buckets, entry, p, start, moves, y, old(queue.pending));
        NextMove(hash, buckets, entry.bucket, start, i);
        moves := moves + [y];
      }
    }

    /** Records a full bucket in the visited list and queues the moves out of it. */
    method Visit(entry: Entry, p: nat, ghost k: Key, ghost seen0: seq<Entry>) returns (ghost seen: seq<Entry>)
      requires BuffersValid() && p < |seen0| <= 682 && entry == seen0[p] && p < 170
      requires Searching(hash, buckets, k, seen0, p, visited[..], p) && entry.depth < MAX_DEPTH
      requires FullAt(buckets, entry.bucket) && AtHome(hash, buckets, entry.bucket)
      requires queue.pending == seen0[p + 1..] && |queue.pending| <= 678
      modifies queue, queue.slots, visited
      ensures BuffersValid()
      ensures Searching(hash, buckets, k, seen, p + 1, visited[..], p + 1)
      ensures queue.pending == seen[p + 1..] && seen == NextSeen(hash, buckets, seen0, p)
    {
      hide WithinBudget, VisitedPrefix, PathQueue.Valid, LegalMoves, Moves, Children, AllDerived, InOrder, Expanded;
      ghost var visited0 := visited[..];
      visited[p] := entry;
      ghost var start, moves := ExpandEntry(entry, p);
      ExpandSearching(hash, buckets, k, seen0, p, visited0, visited[..], start, moves);
      seen := seen0 + Children(entry, p, start, moves, 4);
    }

    /** Pops one entry: either its bucket has a free slot, or its moves are queued. */
    method SearchStep(k: Key, visitedCount: nat, ghost seen0: seq<Entry>, ghost p: nat)
      returns (entry: Entry, slot: int, count: nat, ghost seen: seq<Entry>)
      requires BuffersValid() && Homes(hash, buckets)
      requires Searching(hash, buckets, k, seen0, p, visited[..], visitedCount) && p < |seen0|
      requires queue.pending == seen0[p..]
      modifies queue, queue.slots, visited
      ensures BuffersValid() && -1 <= slot < 4 && entry == seen0[p]
      ensures slot >= 0 ==> entry.bucket < |buckets| && FirstFree(buckets[entry.bucket], slot)
      ensures slot >= 0 ==> AncestorsVisited(visited[..], seen0)
      ensures slot == -1 ==> Searching(hash, buckets, k, seen, p + 1, visited[..], count)
      ensures slot == -1 ==> queue.pending == seen[p + 1..] && seen == NextSeen(hash, buckets, seen0, p)
    {
      hide WithinBudget, VisitedPrefix, PathQueue.Valid;
      seen, count := seen0, visitedCount;
      entry := queue.PopFront();
      PopSuffix(entry, queue.pending, seen0, p);
      assert Derived(hash, buckets, k, seen0, p);
      slot := FindFreeSlot(buckets[entry.bucket]);
      if slot >= 0 {
        ParentsAreVisited(hash, buckets, k, visited[..], visitedCount, seen0, p);
        return;
      }
      assert FullAt(buckets, entry.bucket);
      if entry.depth < MAX_DEPTH {
        ReadyToExpand(hash, buckets, k, seen0, p, visited[..], visitedCount);
        seen := Visit(entry, visitedCount, k, seen0);
        count := visitedCount + 1;
      } else {
        DropSearching(hash, buckets, k, seen0, p, visited[..], visitedCount);
      }
    }

    /** Breadth-first search from the two candidate buckets of `k` for a bucket with a free slot. */
    method SearchPath(k: Key) returns (found: bool, entry: Entry, freeSlot: int, ghost seen: seq<Entry>, ghost p: nat)
      requires BuffersValid() && Homes(hash, buckets)
      modifies queue, queue.slots, visited
      ensures BuffersValid()
      ensures SearchInv(hash, buckets, k, seen, p)
      ensures |seen| <= 682 && seen == Explored(hash, buckets, k, p)
      ensures found ==> p < |seen| && entry == seen[p] && AncestorsVisited(visited[..], seen)
      ensures found ==> entry.bucket < |buckets| && FirstFree(buckets[entry.bucket], freeSlot)
      ensures found ==> NothingCloser(hash, buckets, k, entry.depth)
      ensures !found ==> p == |seen|
      ensures found <==> !NothingInReach(hash, buckets, k)
    {
      hide SearchInv, VisitedPrefix, PathQueue.Valid, Explored, NextSeen, NothingCloser, NothingInReach;
      queue.Reset();
      entry := Entry(Candidate(hash, k, 0, |buckets|), 1, -1, -1);
      queue.PushBack(entry);
      queue.PushBack(Entry(Candidate(hash, k, 1, |buckets|), 1, -1, -1));
      var visitedCount := 0;
      seen, p, freeSlot := Roots(hash, k, |buckets|), 0, -1;
      assert queue.pending == seen[0..];
      StartSearching(hash, buckets, k, visited[..]);
      ExploredStart(hash, buckets, k);
      var empty := queue.IsEmpty();
      while !empty
        invariant BuffersValid() && -1 == freeSlot
        invariant Searching(hash, buckets, k, seen, p, visited[..], visitedCount)
        invariant queue.pending == seen[p..] && empty == (p == |seen|)
        invariant seen == Explored(hash, buckets, k, p)
        decreases 682 - p
      {
        ghost var next;
        entry, freeSlot, visitedCount, next := SearchStep(k, visitedCount, seen, p);
        if freeSlot != -1 {
          FirstPathIsShortest(hash, buckets, k, seen, p);
          FoundIsInReach(hash, buckets, k, seen, p);
          return true, entry, freeSlot, seen, p;
        }
        ExploredStep(hash, buckets, k, p);
        seen, p := next, p + 1;
        empty := queue.IsEmpty();
      }
      NoPathMeansNothingInReach(hash, buckets, k, seen);
      found := false;
    }

    /** Moves the parent's key into the hole; the hole moves to the parent. */
    method ShiftKey(entry: Entry, slot: nat, ghost bs: Buckets, ghost m: map<Key, Value>, ghost k: Key,
        ghost seen: seq<Entry>, ghost p: nat, ghost c: nat)
      returns (ok: bool, parent: Entry)
      requires SearchInv(hash, bs, k, seen, p) && p < |seen| && !FullAt(bs, seen[p].bucket)
      requires AncestorsVisited(visited[..], seen)
      requires Shifting(hash, bs, buckets, locator, at, m, k, seen, p, c, slot) && entry == seen[c] && entry.depth > 1
      requires OnlySlotTaken(bs, buckets, entry.bucket, slot)
      modifies this`buckets, this`locator, this`at
      ensures c >= 2 && 0 <= entry.parent < |seen| && 0 <= entry.parentSlot < 4
      ensures parent == seen[entry.parent] && parent.depth == entry.depth - 1
      ensures ok ==> at.Keys == old(at).Keys
      ensures ok <==> Separable(hash, Filled(bs[entry.bucket], slot, Incoming(hash, bs, k, seen, c), 0, 0))
      ensures ok ==> OnlySlotTaken(bs, buckets, parent.bucket, entry.parentSlot)
      ensures ok ==> Shifting(hash, bs, buckets, locator, at, m, k, seen, p, entry.parent, entry.parentSlot)
    {
      ReadyToShift(hash, bs, buckets, k, seen, p, c);
      MoveFits(hash, bs, buckets, k, seen, p, c, slot);
      parent := visited[entry.parent];
      assert parent == visited[..][entry.parent];
      ok := MoveItem(parent.bucket, entry.parentSlot, entry.bucket, slot);
      if ok {
        StillUntouched(hash, bs, old(buckets), buckets, k, seen, p, c);
      }
    }

    /** Shifts every key on the path one bucket towards the free slot, then stores the new key at the root. */
    method FollowPath(k: Key, v: Value, found: Entry, slot: nat, ghost seen: seq<Entry>,
        ghost p: nat) returns (ok: bool)
      requires TableInv(hash, buckets, locator, at) && k !in at
      requires SearchInv(hash, buckets, k, seen, p) && p < |seen| && found == seen[p]
      requires AncestorsVisited(visited[..], seen) && p >= 2
      requires slot < 4 && found.bucket < |buckets| && !buckets[found.bucket].occupied[slot]
      modifies this`buckets, this`locator, this`at
      ensures ok ==> TableInv(hash, buckets, locator, at) && |buckets| == |old(buckets)|
                     && at.Keys == old(at).Keys + {k}
                     && Contents(buckets, at) == Contents(old(buckets), old(at))[k := v]
      ensures ok <==> FitsFrom(hash, old(buckets), k, seen, p, p, slot)
    {
      hide SearchInv, SeedsGood, Located, Untouched, Separable, FitsFrom;
      ghost var bs, m := buckets, Contents(buckets, at);
      ghost var c: nat := p;
      var entry: Entry, freeSlot: nat := found, slot;
      buckets := buckets[entry.bucket := buckets[entry.bucket].(occupied :=
          buckets[entry.bucket].occupied[freeSlot := true])];
      StartShifting(hash, bs, buckets, locator, at, k, seen, p, slot);
      var toFirstBucket := false;
      while entry.depth > 1
        invariant Shifting(hash, bs, buckets, locator, at, m, k, seen, p, c, freeSlot) && entry == seen[c]
        invariant at.Keys == old(at).Keys
        invariant OnlySlotTaken(bs, buckets, entry.bucket, freeSlot)
        invariant FitsFrom(hash, bs, k, seen, p, c, freeSlot) <==> FitsFrom(hash, bs, k, seen, p, p, slot)
        invariant entry.depth == 1 ==> toFirstBucket == (c == 0)
        decreases entry.depth
      {
        if entry.depth == 2 {
          toFirstBucket := entry.parent == 0;
        }
        var parent;
        StepFits(hash, bs, k, seen, p, c, freeSlot);
        ok, parent := ShiftKey(entry, freeSlot, bs, m, k, seen, p, c);
        if !ok { return; }
        freeSlot, entry, c := entry.parentSlot, parent, entry.parent;
      }
      RootReached(hash, bs, buckets, locator, at, m, k, seen, p, c, freeSlot);
      RootFits(hash, bs, buckets, k, v, seen, p, c, freeSlot);
      ok := PutItem(k, v, entry.bucket, freeSlot, toFirstBucket);
    }

    /** Cuckoo insertion when both candidate buckets are full. */
    method CuckooInsert(k: Key, v: Value) returns (r: Status, ghost seen: seq<Entry>, ghost p: nat, ghost slot: nat)
      requires BuffersValid() && TableInv(hash, buckets, locator, at) && k !in at
      requires FullAt(buckets, Candidate(hash, k, 0, |buckets|)) && FullAt(buckets, Candidate(hash, k, 1, |buckets|))
      modifies this`buckets, this`locator, this`at, queue, queue.slots, visited
      ensures BuffersValid() && (r.Inserted? || r.NoPath? || r.SeedExhausted?)
      ensures r.Inserted? ==> TableInv(hash, buckets, locator, at) && |buckets| == |old(buckets)|
                              && at.Keys == old(at).Keys + {k}
                              && Contents(buckets, at) == Contents(old(buckets), old(at))[k := v]
      ensures r.NoPath? ==> buckets == old(buckets) && locator == old(locator) && at == old(at)
      ensures r.NoPath? <==> NothingInReach(hash, old(buckets), k)
      ensures !r.NoPath? ==> FoundPath(hash, old(buckets), k, seen, p, slot)
      ensures r.Inserted? <==> !r.NoPath? && FitsFrom(hash, old(buckets), k, seen, p, p, slot)
      ensures r.Inserted? <==> Placeable(hash, old(buckets), k)
    {
      hide SearchInv, Explored, FitsFrom, NothingInReach, Placeable, SeedsGood, Located, Indexed;
      TableHasHomes(hash, buckets, locator, at);
      var found, entry, freeSlot;
      found, entry, freeSlot, seen, p := SearchPath(k);
      slot := 0;
      if !found {
        OutOfReach(hash, buckets, k);
        return NoPath, seen, p, slot;
      }
      slot := freeSlot;
      RootsAreFull(hash, buckets, k, seen, p);
      PathDecides(hash, buckets, k, seen, p, slot);
      var ok := FollowPath(k, v, entry, freeSlot, seen, p);
      r := if ok then Inserted else SeedExhausted;
    }

    // ----- growth -----

    /** Moves the key of slot `slot` of bucket `i` to the same slot of bucket `bi`. */
    method TransferKey(i: nat, slot: nat, bi: nat) returns (seed: int)
      requires AllWellShaped(buckets) && i < |buckets| && bi < |buckets| && i != bi && slot < 4
      modifies this`buckets
      ensures -1 <= seed < 255
      ensures seed >= 0 ==>
        var bs, key, value := old(buckets), old(buckets[i].keys[slot]), old(buckets[i].values[slot]);
        && buckets == WithHole(bs[bi := Filled(bs[bi], slot, key, value, seed)], i, slot)
        && CollisionFree(hash, Filled(bs[bi], slot, key, value, seed), seed)
      ensures seed >= 0 <==> Separable(hash, Filled(old(buckets)[bi], slot, old(buckets[i].keys[slot]),
                old(buckets[i].values[slot]), 0))
    {
      ghost var bs := buckets;
      var key, value := buckets[i].keys[slot], buckets[i].values[slot];
      SameKeysSameSeeds(hash, Filled(buckets[bi], slot, key, value, buckets[bi].seed),
          Filled(buckets[bi], slot, key, value, 0));
      buckets := buckets[i := Vacate(buckets[i], slot)];
      buckets := buckets[bi := Filled(buckets[bi], slot, key, value, buckets[bi].seed)];
      seed := UpdateSeed(bi);
      if seed >= 0 {
        RelocatedBuckets(hash, bs, i, bi, slot, key, value, seed);
      }
    }

    /** Handles one slot of the scan: its key moves to its bucket under the wider mask, same slot. */
    method RelocateKey(i: nat, slot: nat, ghost bs0: Buckets, ghost loc: Locator, ghost at0: Places,
        ghost m: map<Key, Value>)
      requires TableInv(hash, bs0, loc, at0) && Multiple(|buckets|, |bs0|) && loc == locator
      requires Growing(hash, buckets, loc, at, at0, m, |bs0|, i, slot) && i < |bs0| <= |buckets| && slot < 4
      requires AllWellShaped(buckets)
      modifies this`buckets, this`at
      ensures |buckets| == |old(buckets)|
      ensures Growing(hash, buckets, loc, at, at0, m, |bs0|, i, slot + 1)
    {
      hide Growing, Located, CollisionFree, Separable, Indexed, SeedsGood;
      ghost var bs, places := buckets, at;
      var key := buckets[i].keys[slot];
      if !buckets[i].occupied[slot] {
        SkipSlot(hash, bs, loc, places, at0, m, |bs0|, i, slot);
        return;
      }
      KeyInScan(hash, bs, loc, places, at0, m, |bs0|, i, slot, key);
      var bi := Candidate(hash, key, locator[key], |buckets|);
      if bi == i {
        SkipSlot(hash, bs, loc, places, at0, m, |bs0|, i, slot);
        return;
      }
      ghost var value := bs[i].values[slot];
      DestinationIsFree(hash, bs, loc, places, at0, m, |bs0|, i, slot, key);
      GrowthFits(hash, bs0, bs, loc, places, at0, m, i, slot, key, value);
      var seed := TransferKey(i, slot, bi);
      RelocateSlot(hash, bs, loc, places, at0, m, |bs0|, i, slot, key, value, bi, seed);
      at := at[key := Pos(bi, slot)];
    }

    /** Grows the bucket array to `numBuckets`. It never fails: the key-value map, every key's slot and every key's
        bucket modulo the old size are kept. */
    method PowerSize()
      requires TableInv(hash, buckets, locator, at) && numBuckets >= |buckets| && Multiple(numBuckets, |buckets|)
      modifies this`buckets, this`at
      ensures |buckets| == numBuckets && GrownFrom(hash, old(buckets), locator, old(at), buckets, at)
    {
      hide Growing, Located, SeedsGood, Indexed;
      ghost var bs0, at0, m := buckets, at, Contents(buckets, at);
      var oldSize := |buckets|;
      StartGrowth(hash, buckets, numBuckets - oldSize, locator, at);
      buckets := buckets + seq(numBuckets - oldSize, _ => EMPTY_BUCKET);
      for i := 0 to oldSize
        invariant |buckets| == numBuckets && AllWellShaped(buckets)
        invariant Growing(hash, buckets, locator, at, at0, m, oldSize, i, 0)
      {
        for slot := 0 to 4
          invariant |buckets| == numBuckets && AllWellShaped(buckets)
          invariant Growing(hash, buckets, locator, at, at0, m, oldSize, i, slot)
        {
          RelocateKey(i, slot, bs0, locator, at0, m);
          GrowingShape(hash, buckets, locator, at, at0, m, oldSize, i, slot + 1);
        }
        NextBucket(hash, buckets, locator, at, at0, m, oldSize, i);
      }
      GrowingShape(hash, buckets, locator, at, at0, m, oldSize, oldSize, 0);
      FinishGrowth(hash, buckets, locator, at, at0, m, oldSize);
    }

    /** Grows the table until it can hold `target` keys, which is more than it holds now. */
    method ResizeCapacity(target: nat)
      requires Valid() && target > capacity
      modifies this`buckets, this`at, this`numBuckets, this`capacity
      ensures Valid() && Map() == old(Map()) && capacity >= target
      ensures GrownFrom(hash, old(buckets), locator, old(at), buckets, at)
      ensures SmallestSize(room, Largest(nKeys, target, 256), numBuckets)
    {
      hide TableInv;
      var next := ChooseSize(room, Largest(nKeys, target, 256));
      assert next > numBuckets;
      PowersDivide(numBuckets, next);
      numBuckets, capacity := next, room(next);
      PowerSize();
      assert |at.Keys| == |at| && |old(at).Keys| == |old(at)|;
    }

    // ----- operations -----

    /** Inserts or overwrites a binding, growing the table first when it is at capacity. A new key is placed in the
        table `bs`, `places`: the one before, or the grown one. That table decides the outcome. */
    method Insert(k: Key, v: Value) returns (r: Status, ghost bs: Buckets, ghost places: Places)
      requires Valid()
      modifies this`buckets, this`locator, this`at, this`nKeys, this`numBuckets, this`capacity, queue, queue.slots,
          visited
      ensures TableInv(hash, bs, old(locator), places) && Contents(bs, places) == old(Map())
      ensures old(k in at || nKeys + 1 <= capacity) ==> bs == old(buckets) && places == old(at)
      ensures !old(k in at || nKeys + 1 <= capacity) ==>
        && GrownFrom(hash, old(buckets), old(locator), old(at), bs, places)
        && SmallestSize(room, Largest(old(nKeys), old(nKeys) + 1, 256), |bs|)
      ensures r.Stored() ==> Valid() && Map() == old(Map())[k := v]
      ensures r.Updated? <==> old(k in at)
      ensures r.Inserted? <==> old(k !in at && nKeys + 1 <= capacity) && Placeable(hash, bs, k)
      ensures r.InsertedAfterGrowth? <==> old(k !in at && nKeys + 1 > capacity) && Placeable(hash, bs, k)
      ensures r.NoPath? <==> old(k !in at) && NothingInReach(hash, bs, k)
      ensures r.NoPath? ==> Valid() && Map() == old(Map()) && buckets == bs && at == places && locator == old(locator)
      ensures r.SeedExhausted? <==> old(k !in at) && !NothingInReach(hash, bs, k) && !Placeable(hash, bs, k)
    {
      hide TableInv, NothingInReach, Placeable, GrownFrom;
      TableShape(hash, buckets, locator, at);
      bs, places := buckets, at;
      var member, b, s := Locate(k);
      if member {
        r := ChangeValue(k, v);
        return;
      }
      var grows := nKeys + 1 > capacity;
      if grows {
        ResizeCapacity(nKeys + 1);
        GrownShape(hash, bs, locator, places, buckets, at);
        bs, places := buckets, at;
      }
      r := InsertNew(k, v);
      if r.NoPath? || r.Inserted? { OutcomesExclude(hash, bs, k); }
      if grows && r.Inserted? {
        r := InsertedAfterGrowth;
      }
    }

    /** Stores a new key in a free slot. */
    method PutFree(k: Key, v: Value, b: nat, s: nat, toFirstBucket: bool) returns (ok: bool)
      requires TableInv(hash, buckets, locator, at) && k !in at
      requires b < |buckets| && s < 4 && !buckets[b].occupied[s]
      requires b == Candidate(hash, k, if toFirstBucket then 0 else 1, |buckets|)
      modifies this`buckets, this`locator, this`at
      ensures ok ==> TableInv(hash, buckets, locator, at) && |buckets| == |old(buckets)|
                     && at.Keys == old(at).Keys + {k}
                     && Contents(buckets, at) == Contents(old(buckets), old(at))[k := v]
      ensures ok <==> Separable(hash, Filled(old(buckets)[b], s, k, v, 0))
    {
      FreeSlotIsHole(buckets, b, s);
      ok := PutItem(k, v, b, s, toFirstBucket);
    }

    /** In the first free slot of the two candidate buckets, else by cuckoo moves. */
    method Place(k: Key, v: Value) returns (r: Status)
      requires BuffersValid() && TableInv(hash, buckets, locator, at) && k !in at
      modifies this`buckets, this`locator, this`at, queue, queue.slots, visited
      ensures BuffersValid() && (r.Inserted? || r.NoPath? || r.SeedExhausted?)
      ensures r.Inserted? ==> TableInv(hash, buckets, locator, at) && |buckets| == |old(buckets)|
                              && at.Keys == old(at).Keys + {k}
                              && Contents(buckets, at) == Contents(old(buckets), old(at))[k := v]
      ensures r.NoPath? ==> buckets == old(buckets) && locator == old(locator) && at == old(at)
      ensures r.NoPath? <==> NothingInReach(hash, old(buckets), k)
      ensures r.Inserted? <==> Placeable(hash, old(buckets), k)
    {
      hide NothingInReach, Placeable, SeedsGood, Located, Indexed;
      var first, second := Candidate(hash, k, 0, |buckets|), Candidate(hash, k, 1, |buckets|);
      var target := first;
      var slot := FindFreeSlot(buckets[first]);
      if slot < 0 {
        target := second;
        slot := FindFreeSlot(buckets[second]);
      }
      if slot >= 0 {
        CandidateInReach(hash, buckets, k, target);
        CandidateDecides(hash, buckets, k, v, target, slot);
        var ok := PutFree(k, v, target, slot, target == first);
        r := if ok then Inserted else SeedExhausted;
      } else {
        ghost var seen, p, s;
        r, seen, p, s := CuckooInsert(k, v);
      }
    }

    /** Stores a key that is not in the table and counts it. */
    method InsertNew(k: Key, v: Value) returns (r: Status)
      requires Valid() && k !in at
      modifies this`buckets, this`locator, this`at, this`nKeys, queue, queue.slots, visited
      ensures r.Inserted? || r.NoPath? || r.SeedExhausted?
      ensures r.Inserted? ==> Valid() && Map() == old(Map())[k := v] && nKeys == old(nKeys) + 1
      ensures r.NoPath? ==> Valid() && buckets == old(buckets) && locator == old(locator) && at == old(at)
      ensures r.NoPath? <==> NothingInReach(hash, old(buckets), k)
      ensures r.Inserted? <==> Placeable(hash, old(buckets), k)
    {
      hide TableInv, NothingInReach, Placeable;
      r := Place(k, v);
      if r.Inserted? {
        OneMoreKey(old(at), at, k);
        nKeys := nKeys + 1;
      }
    }

    /** Overwrites the value of a stored key; an absent key is left absent. */
    method ChangeValue(k: Key, v: Value) returns (r: Status)
      requires Valid()
      modifies this`buckets
      ensures r.Updated? && Valid() && Map() == if old(k in at) then old(Map())[k := v] else old(Map())
    {
      hide TableInv;
      var member, b, s := Locate(k);
      if member {
        RewriteKeeps(hash, buckets, locator, at, k, v);
        buckets := buckets[b := buckets[b].(values := buckets[b].values[s := v])];
      }
      return Updated;
    }

    /** Clears the occupied bit of a stored key and forgets its locator bit. */
    method Unplace(k: Key, b: nat, s: nat)
      requires TableInv(hash, buckets, locator, at) && k in at && at[k] == Pos(b, s)
      modifies this`buckets, this`locator, this`at
      ensures TableInv(hash, buckets, locator, at) && |buckets| == |old(buckets)|
      ensures at == old(at) - {k} && Contents(buckets, at) == Contents(old(buckets), old(at)) - {k}
    {
      VacateKeeps(hash, buckets, locator, at, k);
      buckets := WithHole(buckets, b, s);
      locator, at := locator - {k}, at - {k};
    }

    /** Removes a key; its bucket keeps its seed. */
    method Remove(k: Key)
      requires Valid()
      modifies this`buckets, this`locator, this`at, this`nKeys
      ensures Valid() && Map() == old(Map()) - {k}
    {
      hide TableInv;
      var member, b, s := Locate(k);
      if member {
        OneKeyLess(at, k);
        Unplace(k, b, s);
        nKeys := nKeys - 1;
      } else {
        assert Map() - {k} == Map();
      }
    }

    /** A whole run of operations. The table stands for exactly the map obtained by applying them in order. The run
        stops only at the insertion of a new key that cannot be placed in the table `bs`, `loc`, `places`, which holds
        the map so far: because no free slot is in reach, or because the place found cannot be separated. */
    method Run(ops: seq<Operation>)
        returns (done: nat, why: Status, ghost bs: Buckets, ghost loc: Locator, ghost places: Places)
      requires Valid()
      modifies this`buckets, this`locator, this`at, this`nKeys, this`numBuckets, this`capacity, queue, queue.slots,
          visited
      ensures done <= |ops|
      ensures done == |ops| ==> Valid() && Map() == ApplyAll(old(Map()), ops)
      ensures done < |ops| ==> ops[done].Insert? && Stuck(hash, room, bs, loc, places, ops[done].key, why)
      ensures done < |ops| ==> Contents(bs, places) == ApplyAll(old(Map()), ops[..done])
      ensures done < |ops| && why.NoPath? ==> Valid() && Map() == ApplyAll(old(Map()), ops[..done])
    {
      hide TableInv, Stuck, Apply;
      why, bs, loc, places := Updated, buckets, locator, at;
      for i := 0 to |ops|
        invariant Valid() && Map() == ApplyAll(old(Map()), ops[..i])
      {
        assert ops[..i + 1][..i] == ops[..i];
        why, bs, loc, places := Do(ops[i]);
        if !why.Stored() {
          return i, why, bs, loc, places;
        }
      }
      assert ops[..|ops|] == ops;
      done := |ops|;
    }

    /** One operation of a run. */
    method Do(op: Operation) returns (why: Status, ghost bs: Buckets, ghost loc: Locator, ghost places: Places)
      requires Valid()
      modifies this`buckets, this`locator, this`at, this`nKeys, this`numBuckets, this`capacity, queue, queue.slots,
          visited
      ensures why.Stored() ==> Valid() && Map() == Apply(old(Map()), op)
      ensures !why.Stored() ==> op.Insert? && Stuck(hash, room, bs, loc, places, op.key, why)
      ensures !why.Stored() ==> Contents(bs, places) == old(Map())
      ensures why.NoPath? ==> Valid() && Map() == old(Map())
    {
      hide TableInv, NothingInReach, Placeable, GrownFrom;
      why, bs, loc, places := Updated, buckets, locator, at;
      match op
      case Insert(k, v) =>
        why, bs, places := Insert(k, v);
        TableShape(hash, bs, loc, places);
        assert Contents(bs, places).Keys == places.Keys && old(Map()).Keys == old(at).Keys;
        assert |places.Keys| == |places| && |old(at).Keys| == |old(at)|;
        OutcomesExclude(hash, bs, k);
      case ChangeValue(k, v) =>
        why := ChangeValue(k, v);
      case Remove(k) =>
        Remove(k);
    }
  }
}
