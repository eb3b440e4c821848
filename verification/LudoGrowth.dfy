/** Growing the Ludo table in place: every key stays in its slot index and moves to the candidate bucket
    that its unchanged locator bit selects under the wider mask. */
module LudoGrowth {
  import opened Hashing
  import opened LudoTable

  /** Slot positions before (bucket, slot) in scan order have been handled. */
  predicate Handled(pos: Pos, bucket: nat, slot: nat) {
    pos.bucket < bucket || (pos.bucket == bucket && pos.slot < slot)
  }

  /** Where a key is once the scan has reached (bucket, slot). */
  ghost predicate PlacedAt(h: Hash, k: Key, bit: Bit, was: Pos, now: Pos, n: nat, bucket: nat, slot: nat)
    requires n > 0
  {
    && now.slot == was.slot
    && now.bucket == if Handled(was, bucket, slot) then Candidate(h, k, bit, n) else was.bucket
  }

  /** The scan of the old buckets has reached slot `slot` of bucket `bucket`. */
  ghost predicate Growing(h: Hash, bs: Buckets, loc: Locator, at: Places, at0: Places, m: map<Key, Value>,
                          oldSize: nat, bucket: nat, slot: nat)
  {
    && |bs| > 0 && AllWellShaped(bs) && Indexed(bs, at) && SeedsGood(h, bs)
    && at.Keys == at0.Keys == loc.Keys
    && Contents(bs, at) == m
    && (forall k :: k in at ==> PlacedAt(h, k, loc[k], at0[k], at[k], |bs|, bucket, slot))
  }

  /** Each key's new bucket is congruent to its old one. */
  lemma SameModuloOldSize(h: Hash, k: Key, bit: Bit, was: nat, oldSize: nat, n: nat)
    requires oldSize > 0 && Multiple(n, oldSize) && n > 0 && was == Candidate(h, k, bit, oldSize)
    ensures Masked(Candidate(h, k, bit, n), oldSize) == was
    ensures Candidate(h, k, bit, n) == was || Candidate(h, k, bit, n) >= oldSize
  {
    CandidateGrows(h, k, bit, n, oldSize);
  }

  /** A key met by the scan has not been moved. */
  lemma KeyInScan(h: Hash, bs: Buckets, loc: Locator, at: Places, at0: Places, m: map<Key, Value>,
                  oldSize: nat, bucket: nat, slot: nat, k: Key)
    requires oldSize > 0 && Multiple(|bs|, oldSize) && Located(h, oldSize, loc, at0)
    requires Growing(h, bs, loc, at, at0, m, oldSize, bucket, slot) && Has(bs, bucket, slot, k) && bucket < oldSize
    ensures k in loc && k in at0 && k in at
    ensures at0[k] == Pos(bucket, slot)
  {
    SameModuloOldSize(h, k, loc[k], at0[k].bucket, oldSize, |bs|);
    assert PlacedAt(h, k, loc[k], at0[k], at[k], |bs|, bucket, slot);
  }

  /** The destination slot of a key that leaves its bucket is free. */
  lemma DestinationIsFree(h: Hash, bs: Buckets, loc: Locator, at: Places, at0: Places, m: map<Key, Value>,
                          oldSize: nat, bucket: nat, slot: nat, k: Key)
    requires oldSize > 0 && Multiple(|bs|, oldSize) && Located(h, oldSize, loc, at0)
    requires Growing(h, bs, loc, at, at0, m, oldSize, bucket, slot) && bucket < oldSize && slot < 4
    requires Has(bs, bucket, slot, k) && k in at && Candidate(h, k, loc[k], |bs|) != bucket
    requires at0[k] == Pos(bucket, slot)
    ensures Candidate(h, k, loc[k], |bs|) >= oldSize
    ensures !bs[Candidate(h, k, loc[k], |bs|)].occupied[slot]
  {
    var dst := Candidate(h, k, loc[k], |bs|);
    SameModuloOldSize(h, k, loc[k], at0[k].bucket, oldSize, |bs|);
    if bs[dst].occupied[slot] {
      // Whoever sits there came from the same old slot, which has not been handled yet.
      var other := bs[dst].keys[slot];
      assert Has(bs, dst, slot, other);
      assert PlacedAt(h, other, loc[other], at0[other], at[other], |bs|, bucket, slot);
      SameModuloOldSize(h, other, loc[other], at0[other].bucket, oldSize, |bs|);
    }
  }

  /** Every key of the destination, and the one that moves there, comes from the same slot of the same old bucket,
      whose seed therefore separates them: the seed search of a growth never fails. */
  lemma GrowthFits(h: Hash, bs0: Buckets, bs: Buckets, loc: Locator, at: Places, at0: Places, m: map<Key, Value>,
                   bucket: nat, slot: nat, k: Key, v: Value)
    requires TableInv(h, bs0, loc, at0) && Multiple(|bs|, |bs0|)
    requires Growing(h, bs, loc, at, at0, m, |bs0|, bucket, slot) && bucket < |bs0| && slot < 4
    requires Has(bs, bucket, slot, k) && k in loc && k in at0 && at0[k] == Pos(bucket, slot)
    requires Candidate(h, k, loc[k], |bs|) != bucket
    ensures Separable(h, Filled(bs[Candidate(h, k, loc[k], |bs|)], slot, k, v, 0))
  {
    var dst, was := Candidate(h, k, loc[k], |bs|), bs0[bucket];
    var c := Filled(bs[dst], slot, k, v, 0);
    SameModuloOldSize(h, k, loc[k], bucket, |bs0|, |bs|);
    forall s | 0 <= s < 4 && c.occupied[s] ensures was.occupied[s] && was.keys[s] == c.keys[s] {
      if s == slot {
        assert Has(bs0, bucket, slot, k);
      } else {
        CameFromOldBucket(h, bs0, bs, loc, at, at0, m, bucket, slot, dst, s);
      }
    }
    assert CollisionFree(h, was, was.seed);
    assert CollisionFree(h, c, was.seed);
  }

  /** A key that the scan has put in a new bucket sat in the same slot of the old one. */
  lemma CameFromOldBucket(h: Hash, bs0: Buckets, bs: Buckets, loc: Locator, at: Places, at0: Places,
                          m: map<Key, Value>, bucket: nat, slot: nat, dst: nat, s: nat)
    requires TableInv(h, bs0, loc, at0) && Multiple(|bs|, |bs0|)
    requires Growing(h, bs, loc, at, at0, m, |bs0|, bucket, slot) && bucket < |bs0|
    requires |bs0| <= dst < |bs| && Masked(dst, |bs0|) == bucket && s < 4 && bs[dst].occupied[s]
    ensures bs0[bucket].occupied[s] && bs0[bucket].keys[s] == bs[dst].keys[s]
  {
    var j := bs[dst].keys[s];
    assert Has(bs, dst, s, j);
    assert PlacedAt(h, j, loc[j], at0[j], at[j], |bs|, bucket, slot);
    SameModuloOldSize(h, j, loc[j], at0[j].bucket, |bs0|, |bs|);
    assert Has(bs0, at0[j].bucket, at0[j].slot, j);
  }

  /** An unoccupied slot, or a key whose bucket does not change, needs no work. */
  lemma SkipSlot(h: Hash, bs: Buckets, loc: Locator, at: Places, at0: Places, m: map<Key, Value>,
                 oldSize: nat, bucket: nat, slot: nat)
    requires Growing(h, bs, loc, at, at0, m, oldSize, bucket, slot) && bucket < |bs| && slot < 4
    requires var k := bs[bucket].keys[slot];
      bs[bucket].occupied[slot] ==> k in loc && Candidate(h, k, loc[k], |bs|) == bucket
    ensures Growing(h, bs, loc, at, at0, m, oldSize, bucket, slot + 1)
  {
    forall k | k in at ensures PlacedAt(h, k, loc[k], at0[k], at[k], |bs|, bucket, slot + 1) {
      assert PlacedAt(h, k, loc[k], at0[k], at[k], |bs|, bucket, slot);
      assert Has(bs, at[k].bucket, at[k].slot, k);
    }
  }

  /** Moving one key to the same slot of its bucket in the grown table. */
  lemma RelocateSlot(h: Hash, bs: Buckets, loc: Locator, at: Places, at0: Places, m: map<Key, Value>,
                     oldSize: nat, bucket: nat, slot: nat, k: Key, v: Value, dst: nat, seed: nat)
    requires Growing(h, bs, loc, at, at0, m, oldSize, bucket, slot) && slot < 4
    requires Has(bs, bucket, slot, k) && ValueAt(bs, bucket, slot, k) == v && k in loc
    requires dst == Candidate(h, k, loc[k], |bs|) && dst != bucket && !bs[dst].occupied[slot]
    requires k in at0 && at0[k] == Pos(bucket, slot)
    requires seed < 255 && CollisionFree(h, Filled(bs[dst], slot, k, v, seed), seed)
    ensures var bs' := WithHole(bs[dst := Filled(bs[dst], slot, k, v, seed)], bucket, slot);
      Growing(h, bs', loc, at[k := Pos(dst, slot)], at0, m, oldSize, bucket, slot + 1)
  {
    RelocatedTable(h, bs, at, k, v, bucket, slot, dst, seed);
    RelocatedPlaces(h, bs, loc, at, at0, m, oldSize, bucket, slot, k, dst);
    hide Indexed, SeedsGood, CollisionFree, PlacedAt, Contents, AllWellShaped;
    assert (at[k := Pos(dst, slot)]).Keys == at.Keys;
  }

  lemma RelocatedTable(h: Hash, bs: Buckets, at: Places, k: Key, v: Value, bucket: nat, slot: nat, dst: nat, seed: nat)
    requires AllWellShaped(bs) && Indexed(bs, at) && SeedsGood(h, bs) && slot < 4
    requires Has(bs, bucket, slot, k) && ValueAt(bs, bucket, slot, k) == v
    requires dst != bucket && dst < |bs| && !bs[dst].occupied[slot]
    requires seed < 255 && CollisionFree(h, Filled(bs[dst], slot, k, v, seed), seed)
    ensures k in at
    ensures var bs' := WithHole(bs[dst := Filled(bs[dst], slot, k, v, seed)], bucket, slot);
      var at' := at[k := Pos(dst, slot)];
      Indexed(bs', at') && SeedsGood(h, bs') && Contents(bs', at') == Contents(bs, at)
  {
    hide Indexed, SeedsGood, CollisionFree;
    FreeSlotIsHole(bs, dst, slot);
    MoveIndexed(bs, at, k, v, bucket, slot, dst, slot, seed);
    MoveSeeds(h, bs, bucket, slot, dst, slot, Filled(bs[dst], slot, k, v, seed));
  }

  lemma RelocatedPlaces(h: Hash, bs: Buckets, loc: Locator, at: Places, at0: Places, m: map<Key, Value>,
                        oldSize: nat, bucket: nat, slot: nat, k: Key, dst: nat)
    requires Growing(h, bs, loc, at, at0, m, oldSize, bucket, slot) && slot < 4
    requires Has(bs, bucket, slot, k) && k in loc && dst == Candidate(h, k, loc[k], |bs|)
    requires k in at0 && at0[k] == Pos(bucket, slot)
    ensures forall j :: j in at ==>
      PlacedAt(h, j, loc[j], at0[j], at[k := Pos(dst, slot)][j], |bs|, bucket, slot + 1)
  {
    var at' := at[k := Pos(dst, slot)];
    forall j | j in at ensures PlacedAt(h, j, loc[j], at0[j], at'[j], |bs|, bucket, slot + 1) {
      assert PlacedAt(h, j, loc[j], at0[j], at[j], |bs|, bucket, slot);
      assert Has(bs, at[j].bucket, at[j].slot, j);
    }
  }

  lemma NextBucket(h: Hash, bs: Buckets, loc: Locator, at: Places, at0: Places, m: map<Key, Value>, oldSize: nat,
      bucket: nat)
    requires Growing(h, bs, loc, at, at0, m, oldSize, bucket, 4)
    ensures Growing(h, bs, loc, at, at0, m, oldSize, bucket + 1, 0)
  {
    forall k | k in at ensures PlacedAt(h, k, loc[k], at0[k], at[k], |bs|, bucket + 1, 0) {
      assert PlacedAt(h, k, loc[k], at0[k], at[k], |bs|, bucket, 4);
      assert Has(bs, at[k].bucket, at[k].slot, k);
    }
  }

  lemma StartGrowth(h: Hash, bs: Buckets, extra: nat, loc: Locator, at: Places)
    requires TableInv(h, bs, loc, at)
    ensures var bs' := bs + seq(extra, _ => EMPTY_BUCKET);
      Growing(h, bs', loc, at, at, Contents(bs, at), |bs|, 0, 0)
  {
    hide SeedsGood, Indexed;
    MoreSeeds(h, bs, extra);
    MorePlaces(bs, extra, at);
  }

  /** Empty buckets have good seeds. */
  lemma MoreSeeds(h: Hash, bs: Buckets, extra: nat)
    requires SeedsGood(h, bs)
    ensures SeedsGood(h, bs + seq(extra, _ => EMPTY_BUCKET))
  {
    var bs' := bs + seq(extra, _ => EMPTY_BUCKET);
    forall b | 0 <= b < |bs'| ensures bs'[b].seed < 255 && CollisionFree(h, bs'[b], bs'[b].seed) {
      if b < |bs| { assert CollisionFree(h, bs[b], bs[b].seed); }
    }
  }

  /** Empty buckets add no key. */
  lemma MorePlaces(bs: Buckets, extra: nat, at: Places)
    requires AllWellShaped(bs) && Indexed(bs, at)
    ensures var bs' := bs + seq(extra, _ => EMPTY_BUCKET);
      AllWellShaped(bs') && Indexed(bs', at) && Contents(bs', at) == Contents(bs, at)
  {
    var bs' := bs + seq(extra, _ => EMPTY_BUCKET);
    forall k | k in at ensures Has(bs', at[k].bucket, at[k].slot, k) {
      assert Has(bs, at[k].bucket, at[k].slot, k);
    }
    forall b, s, k | Has(bs', b, s, k) ensures k in at && at[k] == Pos(b, s) {
      assert Has(bs, b, s, k);
    }
    forall k | k in at ensures Contents(bs', at)[k] == Contents(bs, at)[k] {
      assert Has(bs, at[k].bucket, at[k].slot, k) && Has(bs', at[k].bucket, at[k].slot, k);
    }
  }

  /** After the scan every key is where its locator bit says, at its old slot and congruent bucket. */
  lemma FinishGrowth(h: Hash, bs: Buckets, loc: Locator, at: Places, at0: Places, m: map<Key, Value>, oldSize: nat)
    requires oldSize > 0 && Multiple(|bs|, oldSize) && Located(h, oldSize, loc, at0)
    requires Growing(h, bs, loc, at, at0, m, oldSize, oldSize, 0)
    ensures TableInv(h, bs, loc, at)
    ensures forall k :: k in at ==> at[k].slot == at0[k].slot && Masked(at[k].bucket, oldSize) == at0[k].bucket
  {
    forall k | k in at
      ensures at[k].bucket == Candidate(h, k, loc[k], |bs|)
      ensures at[k].slot == at0[k].slot && Masked(at[k].bucket, oldSize) == at0[k].bucket
    {
      assert PlacedAt(h, k, loc[k], at0[k], at[k], |bs|, oldSize, 0);
      SameModuloOldSize(h, k, loc[k], at0[k].bucket, oldSize, |bs|);
    }
  }

  /** The three writes of a relocation, seen as one. */
  lemma RelocatedBuckets(h: Hash, bs: Buckets, i: nat, bi: nat, slot: nat, k: Key, v: Value, seed: nat)
    requires AllWellShaped(bs) && i < |bs| && bi < |bs| && i != bi && slot < 4
    requires CollisionFree(h, Filled(bs[bi], slot, k, v, bs[bi].seed), seed)
    ensures var bs1 := bs[i := Vacate(bs[i], slot)];
            var bs2 := bs1[bi := Filled(bs1[bi], slot, k, v, bs1[bi].seed)];
      bs2[bi := bs2[bi].(seed := seed)] == WithHole(bs[bi := Filled(bs[bi], slot, k, v, seed)], i, slot)
    ensures CollisionFree(h, Filled(bs[bi], slot, k, v, seed), seed)
  {
  }
}
