/** The cuckoo table of the Ludo control plane, as a value: buckets of four slots, one seed per
    bucket and one locator bit per key, with the invariant that every operation keeps. */
module LudoTable {
  import opened Hashing

  /** Keys and values of unoccupied slots are stale and never read. */
  datatype Bucket = Bucket(seed: nat, occupied: seq<bool>, keys: seq<Key>, values: seq<Value>)

  const EMPTY_BUCKET: Bucket :=
    Bucket(0, [false, false, false, false], [0, 0, 0, 0], [0, 0, 0, 0])

  datatype Pos = Pos(bucket: nat, slot: nat)

  type Buckets = seq<Bucket>
  type Locator = map<Key, Bit>
  type Places = map<Key, Pos>

  predicate WellShaped(c: Bucket) {
    |c.occupied| == 4 && |c.keys| == 4 && |c.values| == 4
  }

  predicate AllWellShaped(bs: Buckets) {
    forall b :: 0 <= b < |bs| ==> WellShaped(bs[b])
  }

  /** Key `k` is stored in slot `s` of bucket `b`. */
  predicate Has(bs: Buckets, b: nat, s: nat, k: Key) {
    b < |bs| && s < 4 && WellShaped(bs[b]) && bs[b].occupied[s] && bs[b].keys[s] == k
  }

  /** No two stored keys of the bucket hash to the same slot under its seed. */
  predicate CollisionFree(h: Hash, c: Bucket, seed: nat) {
    WellShaped(c) &&
    forall s, t {:trigger SlotOf(h, seed, c.keys[s]), SlotOf(h, seed, c.keys[t])} ::
      0 <= s < t < 4 && c.occupied[s] && c.occupied[t] ==>
        SlotOf(h, seed, c.keys[s]) != SlotOf(h, seed, c.keys[t])
  }

  /** Every bucket's seed is one that the search can find, and separates its keys. */
  predicate SeedsGood(h: Hash, bs: Buckets) {
    forall b {:trigger CollisionFree(h, bs[b], bs[b].seed)} :: 0 <= b < |bs| ==>
      bs[b].seed < 255 && CollisionFree(h, bs[b], bs[b].seed)
  }

  /** `at` lists each stored key once, at its only place. */
  ghost predicate Indexed(bs: Buckets, at: Places) {
    && (forall k :: k in at ==> Has(bs, at[k].bucket, at[k].slot, k))
    && (forall b, s, k :: Has(bs, b, s, k) ==> k in at && at[k] == Pos(b, s))
  }

  /** The locator knows exactly the stored keys, and its bit names the candidate bucket that holds the key. */
  ghost predicate Located(h: Hash, n: nat, loc: Locator, at: Places)
    requires n > 0
  {
    && loc.Keys == at.Keys
    && (forall k :: k in at ==> at[k].bucket == Candidate(h, k, loc[k], n))
  }

  ghost predicate TableInv(h: Hash, bs: Buckets, loc: Locator, at: Places) {
    && |bs| > 0
    && AllWellShaped(bs)
    && Indexed(bs, at)
    && Located(h, |bs|, loc, at)
    && SeedsGood(h, bs)
  }

  function ValueAt(bs: Buckets, b: nat, s: nat, k: Key): Value
    requires Has(bs, b, s, k)
  {
    bs[b].values[s]
  }

  /** The key-value map the table stands for. */
  ghost function Contents(bs: Buckets, at: Places): map<Key, Value>
    requires Indexed(bs, at)
  {
    map k | k in at :: ValueAt(bs, at[k].bucket, at[k].slot, k)
  }

  // ----- single-bucket edits -----

  function Vacate(c: Bucket, s: nat): (r: Bucket)
    requires WellShaped(c) && s < 4
  {
    c.(occupied := c.occupied[s := false])
  }

  /** The table with slot `s` of bucket `b` read as unoccupied: the "hole" that a cuckoo path carries upwards. */
  function WithHole(bs: Buckets, b: nat, s: nat): (r: Buckets)
    requires AllWellShaped(bs) && b < |bs| && s < 4
    ensures |r| == |bs| && AllWellShaped(r)
  {
    bs[b := Vacate(bs[b], s)]
  }

  lemma FreeSlotIsHole(bs: Buckets, b: nat, s: nat)
    requires AllWellShaped(bs) && b < |bs| && s < 4 && !bs[b].occupied[s]
    ensures WithHole(bs, b, s) == bs
  {
    assert bs[b].occupied[s := false] == bs[b].occupied;
  }

  lemma OpenHole(bs: Buckets, b: nat, s: nat, c: Bucket)
    requires AllWellShaped(bs) && b < |bs| && s < 4 && !bs[b].occupied[s]
    requires c == bs[b].(occupied := bs[b].occupied[s := true])
    ensures AllWellShaped(bs[b := c]) && WithHole(bs[b := c], b, s) == bs
  {
    assert bs[b].occupied[s := true][s := false] == bs[b].occupied;
  }

  lemma StoredKeyIsRegistered(h: Hash, bs: Buckets, loc: Locator, at: Places, b: nat, s: nat, k: Key)
    requires TableInv(h, bs, loc, at) && Has(bs, b, s, k)
    ensures k in at && k in loc && at[k] == Pos(b, s)
  {
  }

  lemma BucketSwapKeepsSeeds(h: Hash, bs: Buckets, b: nat, c: Bucket)
    requires SeedsGood(h, bs) && b < |bs| && c.seed < 255 && CollisionFree(h, c, c.seed)
    ensures SeedsGood(h, bs[b := c])
  {
    hide CollisionFree;
    var bs' := bs[b := c];
    forall i | 0 <= i < |bs'| ensures bs'[i].seed < 255 && CollisionFree(h, bs'[i], bs'[i].seed) {
      if i != b { assert CollisionFree(h, bs[i], bs[i].seed); }
    }
  }

  lemma VacateIndexed(bs: Buckets, at: Places, k: Key)
    requires AllWellShaped(bs) && Indexed(bs, at) && k in at
    ensures var bs' := WithHole(bs, at[k].bucket, at[k].slot);
      Indexed(bs', at - {k}) && Contents(bs', at - {k}) == Contents(bs, at) - {k}
  {
    var b, s := at[k].bucket, at[k].slot;
    var bs', at' := WithHole(bs, b, s), at - {k};
    assert Has(bs, b, s, k);
    forall j | j in at' ensures Has(bs', at'[j].bucket, at'[j].slot, j) {
      assert Has(bs, at[j].bucket, at[j].slot, j);
    }
    forall b1, s1, j | Has(bs', b1, s1, j) ensures j in at' && at'[j] == Pos(b1, s1) {
      assert Has(bs, b1, s1, j);
    }
  }

  /** Removing a stored key keeps the invariant; the bucket keeps its seed. */
  lemma VacateKeeps(h: Hash, bs: Buckets, loc: Locator, at: Places, k: Key)
    requires TableInv(h, bs, loc, at)
    requires k in at
    ensures var bs' := WithHole(bs, at[k].bucket, at[k].slot);
      && TableInv(h, bs', loc - {k}, at - {k})
      && Contents(bs', at - {k}) == Contents(bs, at) - {k}
  {
    var b, s := at[k].bucket, at[k].slot;
    assert Has(bs, b, s, k);
    VacateIndexed(bs, at, k);
    assert CollisionFree(h, bs[b], bs[b].seed);
    BucketSwapKeepsSeeds(h, bs, b, Vacate(bs[b], s));
  }

  /** A bucket with one more key in a free slot. */
  function Filled(c: Bucket, s: nat, k: Key, v: Value, seed: nat): (r: Bucket)
    requires WellShaped(c) && s < 4
  {
    Bucket(seed, c.occupied[s := true], c.keys[s := k], c.values[s := v])
  }

  lemma FillIndexed(bs: Buckets, at: Places, b: nat, s: nat, k: Key, v: Value, seed: nat)
    requires AllWellShaped(bs) && Indexed(bs, at)
    requires k !in at && b < |bs| && s < 4 && !bs[b].occupied[s]
    ensures var bs', at' := bs[b := Filled(bs[b], s, k, v, seed)], at[k := Pos(b, s)];
      Indexed(bs', at') && Contents(bs', at') == Contents(bs, at)[k := v]
  {
    var bs', at' := bs[b := Filled(bs[b], s, k, v, seed)], at[k := Pos(b, s)];
    forall j | j in at' ensures Has(bs', at'[j].bucket, at'[j].slot, j) {
      if j != k { assert Has(bs, at[j].bucket, at[j].slot, j); }
    }
    forall b1, s1, j | Has(bs', b1, s1, j) ensures j in at' && at'[j] == Pos(b1, s1) {
      if !(b1 == b && s1 == s) { assert Has(bs, b1, s1, j); }
    }
    forall j | j in at ensures Contents(bs', at')[j] == Contents(bs, at)[j] {
      assert Has(bs, at[j].bucket, at[j].slot, j);
      assert Has(bs', at'[j].bucket, at'[j].slot, j);
    }
  }

  /** Filling a free slot of the candidate bucket named by `bit`, with a seed that separates the
      bucket's keys, adds exactly one binding. */
  lemma FillKeeps(h: Hash, bs: Buckets, loc: Locator, at: Places,
                  b: nat, s: nat, k: Key, v: Value, bit: Bit, seed: nat)
    requires TableInv(h, bs, loc, at)
    requires k !in at && b < |bs| && s < 4 && !bs[b].occupied[s]
    requires b == Candidate(h, k, bit, |bs|)
    requires seed < 255 && CollisionFree(h, Filled(bs[b], s, k, v, seed), seed)
    ensures var bs', at' := bs[b := Filled(bs[b], s, k, v, seed)], at[k := Pos(b, s)];
      && TableInv(h, bs', loc[k := bit], at')
      && Contents(bs', at') == Contents(bs, at)[k := v]
  {
    FillIndexed(bs, at, b, s, k, v, seed);
    BucketSwapKeepsSeeds(h, bs, b, Filled(bs[b], s, k, v, seed));
  }

  lemma RewriteIndexed(bs: Buckets, at: Places, k: Key, b: nat, c': Bucket, v: Value)
    requires AllWellShaped(bs) && Indexed(bs, at) && k in at && b == at[k].bucket < |bs| && at[k].slot < 4
    requires c' == bs[b].(values := bs[b].values[at[k].slot := v])
    ensures Indexed(bs[b := c'], at) && Contents(bs[b := c'], at) == Contents(bs, at)[k := v]
  {
    var s, bs' := at[k].slot, bs[b := c'];
    forall j | j in at ensures Has(bs', at[j].bucket, at[j].slot, j) {
      assert Has(bs, at[j].bucket, at[j].slot, j);
    }
    forall b1, s1, j | Has(bs', b1, s1, j) ensures j in at && at[j] == Pos(b1, s1) {
      assert Has(bs, b1, s1, j);
    }
    forall j | j in at ensures Contents(bs', at)[j] == Contents(bs, at)[k := v][j] {
      assert Has(bs, at[j].bucket, at[j].slot, j);
      assert Has(bs', at[j].bucket, at[j].slot, j);
    }
  }

  /** Overwriting the value of a stored key changes that binding alone. */
  lemma RewriteKeeps(h: Hash, bs: Buckets, loc: Locator, at: Places, k: Key, v: Value)
    requires TableInv(h, bs, loc, at)
    requires k in at
    ensures at[k].bucket < |bs| && at[k].slot < 4 && WellShaped(bs[at[k].bucket])
    ensures var c := bs[at[k].bucket];
            var bs' := bs[at[k].bucket := c.(values := c.values[at[k].slot := v])];
      && TableInv(h, bs', loc, at)
      && Contents(bs', at) == Contents(bs, at)[k := v]
  {
    var b, s := at[k].bucket, at[k].slot;
    assert Has(bs, b, s, k);
    var c' := bs[b].(values := bs[b].values[s := v]);
    RewriteIndexed(bs, at, k, b, c', v);
    assert CollisionFree(h, bs[b], bs[b].seed);
    BucketSwapKeepsSeeds(h, bs, b, c');
  }

  lemma MoveIndexed(bs: Buckets, at: Places, k: Key, v: Value, sBkt: nat, sSlot: nat, dBkt: nat, dSlot: nat, seed: nat)
    requires AllWellShaped(bs) && dBkt < |bs| && dSlot < 4 && sBkt != dBkt
    requires Indexed(WithHole(bs, dBkt, dSlot), at)
    requires Has(bs, sBkt, sSlot, k) && ValueAt(bs, sBkt, sSlot, k) == v
    ensures var bs', at' := bs[dBkt := Filled(bs[dBkt], dSlot, k, v, seed)], at[k := Pos(dBkt, dSlot)];
      && k in at && at[k] == Pos(sBkt, sSlot)
      && Indexed(WithHole(bs', sBkt, sSlot), at')
      && Contents(WithHole(bs', sBkt, sSlot), at') == Contents(WithHole(bs, dBkt, dSlot), at)
  {
    var holed := WithHole(bs, dBkt, dSlot);
    var final := WithHole(bs[dBkt := Filled(bs[dBkt], dSlot, k, v, seed)], sBkt, sSlot);
    var at' := at[k := Pos(dBkt, dSlot)];
    assert Has(holed, sBkt, sSlot, k);
    forall j | j in at' ensures Has(final, at'[j].bucket, at'[j].slot, j) {
      if j != k { assert Has(holed, at[j].bucket, at[j].slot, j); }
    }
    forall b1, s1, j | Has(final, b1, s1, j) ensures j in at' && at'[j] == Pos(b1, s1) {
      if !(b1 == dBkt && s1 == dSlot) { assert Has(holed, b1, s1, j); }
    }
    forall j | j in at ensures Contents(final, at')[j] == Contents(holed, at)[j] {
      assert Has(holed, at[j].bucket, at[j].slot, j);
      assert Has(final, at'[j].bucket, at'[j].slot, j);
    }
  }

  lemma MoveSeeds(h: Hash, bs: Buckets, sBkt: nat, sSlot: nat, dBkt: nat, dSlot: nat, c: Bucket)
    requires AllWellShaped(bs) && dBkt < |bs| && dSlot < 4 && sBkt != dBkt && sBkt < |bs| && sSlot < 4
    requires SeedsGood(h, WithHole(bs, dBkt, dSlot)) && c.seed < 255 && CollisionFree(h, c, c.seed)
    ensures SeedsGood(h, WithHole(bs[dBkt := c], sBkt, sSlot))
  {
    var holed, final := WithHole(bs, dBkt, dSlot), WithHole(bs[dBkt := c], sBkt, sSlot);
    forall b | 0 <= b < |final| ensures final[b].seed < 255 && CollisionFree(h, final[b], final[b].seed) {
      assert CollisionFree(h, holed[b], holed[b].seed);
    }
  }

  /** One step of a cuckoo path on the buckets as they are: the key of slot `sSlot` is copied into the
      hole in its other candidate bucket and its bit toggled. The key-value map is untouched, and the
      key's old slot, which still holds a copy, is the new hole. */
  lemma MoveHole(h: Hash, bs: Buckets, loc: Locator, at: Places, k: Key, v: Value,
                 sBkt: nat, sSlot: nat, dBkt: nat, dSlot: nat, seed: nat)
    requires AllWellShaped(bs) && dBkt < |bs| && dSlot < 4 && sBkt != dBkt
    requires TableInv(h, WithHole(bs, dBkt, dSlot), loc, at)
    requires Has(bs, sBkt, sSlot, k) && ValueAt(bs, sBkt, sSlot, k) == v
    requires dBkt == Candidate(h, k, 0, |bs|) || dBkt == Candidate(h, k, 1, |bs|)
    requires seed < 255 && CollisionFree(h, Filled(bs[dBkt], dSlot, k, v, seed), seed)
    ensures var bs', at' := bs[dBkt := Filled(bs[dBkt], dSlot, k, v, seed)], at[k := Pos(dBkt, dSlot)];
      && k in at && k in loc
      && TableInv(h, WithHole(bs', sBkt, sSlot), loc[k := 1 - loc[k]], at')
      && Contents(WithHole(bs', sBkt, sSlot), at') == Contents(WithHole(bs, dBkt, dSlot), at)
  {
    MoveIndexed(bs, at, k, v, sBkt, sSlot, dBkt, dSlot, seed);
    MoveSeeds(h, bs, sBkt, sSlot, dBkt, dSlot, Filled(bs[dBkt], dSlot, k, v, seed));
  }

  lemma MovedBucket(c0: Bucket, c: Bucket, s: nat, k: Key, v: Value, seed: nat, h: Hash)
    requires WellShaped(c0) && s < 4 && c0.occupied[s] && CollisionFree(h, c, seed)
    requires c == c0.(keys := c0.keys[s := k], values := c0.values[s := v])
    ensures Filled(c0, s, k, v, seed) == c.(seed := seed)
    ensures CollisionFree(h, Filled(c0, s, k, v, seed), seed)
  {
  }

  // ----- buckets that no seed separates -----

  /** Some seed that the search tries separates the bucket's keys. */
  ghost predicate Separable(h: Hash, c: Bucket) {
    exists t: nat :: t < 255 && CollisionFree(h, c, t)
  }

  /** Whether a seed separates a bucket depends on its stored keys alone. */
  lemma SameKeysSameSeeds(h: Hash, c: Bucket, d: Bucket)
    requires WellShaped(c) && WellShaped(d) && c.occupied == d.occupied && c.keys == d.keys
    ensures Separable(h, c) <==> Separable(h, d)
    ensures forall t :: CollisionFree(h, c, t) <==> CollisionFree(h, d, t)
  {
    assert forall t :: CollisionFree(h, c, t) <==> CollisionFree(h, d, t);
  }

  // ----- scans over one bucket -----

  /** First slot of the bucket that is not occupied, or -1. */
  method FindFreeSlot(c: Bucket) returns (slot: int)
    requires WellShaped(c)
    ensures -1 <= slot < 4
    ensures slot >= 0 ==> !c.occupied[slot] && forall s :: 0 <= s < slot ==> c.occupied[s]
    ensures slot == -1 ==> forall s :: 0 <= s < 4 ==> c.occupied[s]
  {
    for i := 0 to 4
      invariant forall s :: 0 <= s < i ==> c.occupied[s]
    {
      if !c.occupied[i] {
        return i;
      }
    }
    return -1;
  }

  /** The slot of the bucket that holds the key, or -1. */
  method FindInBucket(c: Bucket, k: Key) returns (slot: int)
    requires WellShaped(c)
    ensures -1 <= slot < 4
    ensures slot >= 0 ==> c.occupied[slot] && c.keys[slot] == k
    ensures slot == -1 ==> forall s :: 0 <= s < 4 && c.occupied[s] ==> c.keys[s] != k
  {
    for i := 0 to 4
      invariant forall s :: 0 <= s < i && c.occupied[s] ==> c.keys[s] != k
    {
      if c.occupied[i] && c.keys[i] == k {
        return i;
      }
    }
    return -1;
  }

  /** Whether the seed sends the stored keys of the bucket to pairwise different slots. */
  method Separates(h: Hash, c: Bucket, seed: nat) returns (ok: bool)
    requires WellShaped(c)
    ensures ok <==> CollisionFree(h, c, seed)
  {
    var taken := [false, false, false, false];
    for slot := 0 to 4
      invariant |taken| == 4
      invariant forall s :: 0 <= s < slot && c.occupied[s] ==> taken[SlotOf(h, seed, c.keys[s])]
      invariant forall i: nat :: i < 4 && taken[i] ==>
        exists s :: 0 <= s < slot && c.occupied[s] && SlotOf(h, seed, c.keys[s]) == i
      invariant forall s, t :: 0 <= s < t < slot && c.occupied[s] && c.occupied[t] ==>
        SlotOf(h, seed, c.keys[s]) != SlotOf(h, seed, c.keys[t])
    {
      if c.occupied[slot] {
        var i := SlotOf(h, seed, c.keys[slot]);
        if taken[i] {
          return false;
        }
        taken := taken[i := true];
      }
    }
    return true;
  }

  /** Smallest seed below 255 that separates the bucket's keys, or -1 when there is none. */
  method FindSeed(h: Hash, c: Bucket) returns (seed: int)
    requires WellShaped(c)
    ensures -1 <= seed < 255
    ensures seed >= 0 ==> CollisionFree(h, c, seed) && forall t :: 0 <= t < seed ==> !CollisionFree(h, c, t)
    ensures seed == -1 ==> forall t :: 0 <= t < 255 ==> !CollisionFree(h, c, t)
  {
    for t := 0 to 255
      invariant forall u :: 0 <= u < t ==> !CollisionFree(h, c, u)
    {
      var ok := Separates(h, c, t);
      if ok {
        return t;
      }
    }
    return -1;
  }
}
