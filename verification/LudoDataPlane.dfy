/** The keyless data plane: one seed per bucket and the locator. It stores no keys, and finds the cell of
    a stored key by computing two hashes. */
module LudoDataPlane {
  import opened Hashing
  import opened LudoTable
  import opened LudoSlots
  import opened LudoSearch
  import opened LudoControlPlane

  /** The locator answers every key; for keys it was not given the answer is arbitrary. */
  type Stray = Key -> Bit

  function LocatorBit(loc: Locator, stray: Stray, k: Key): Bit {
    if k in loc then loc[k] else stray(k)
  }

  /** Where the data plane looks for a key. */
  function LookupSlot(h: Hash, seeds: seq<nat>, loc: Locator, stray: Stray, k: Key): (p: Pos)
    requires |seeds| > 0
    ensures p.bucket < |seeds| && p.slot < 4
  {
    var b := Candidate(h, k, LocatorBit(loc, stray, k), |seeds|);
    Pos(b, SlotOf(h, seeds[b], k))
  }

  /** Slot `t` of the compiled row belongs to one of the first `n` slots of the control-plane bucket. */
  ghost predicate WrittenBy(h: Hash, c: Bucket, n: nat, s: nat, t: nat)
    requires WellShaped(c)
  {
    s < n && s < 4 && c.occupied[s] && SlotOf(h, c.seed, c.keys[s]) == t
  }

  /** Every stored value of the bucket is in the row, at the slot its key hashes to. */
  predicate RowHolds(h: Hash, c: Bucket, row: Row)
    requires WellShaped(c)
  {
    forall s :: 0 <= s < 4 && c.occupied[s] ==> row[SlotOf(h, c.seed, c.keys[s])] == BulkCell(c.values[s])
  }

  /** Nothing but stored values is in the row: every cell that is not empty is that of a stored key. */
  ghost predicate NothingElse(h: Hash, c: Bucket, row: Row)
    requires WellShaped(c)
  {
    forall t :: 0 <= t < 4 && row[t] != 0 ==> exists s :: WrittenBy(h, c, 4, s, t)
  }

  /** The row of cells for a control-plane bucket: every stored value at the slot its key hashes to. */
  method CompileRow(h: Hash, c: Bucket) returns (row: Row)
    requires CollisionFree(h, c, c.seed)
    ensures RowHolds(h, c, row) && NothingElse(h, c, row)
  {
    hide BulkCell;
    row := EMPTY_ROW;
    for slot := 0 to 4
      invariant forall s :: 0 <= s < slot && c.occupied[s] ==>
                row[SlotOf(h, c.seed, c.keys[s])] == BulkCell(c.values[s])
      invariant forall t :: 0 <= t < 4 && row[t] != 0 ==> exists s :: WrittenBy(h, c, slot, s, t)
    {
      ghost var before := row;
      if c.occupied[slot] {
        row := row[SlotOf(h, c.seed, c.keys[slot]) := BulkCell(c.values[slot])];
        assert WrittenBy(h, c, slot + 1, slot, SlotOf(h, c.seed, c.keys[slot]));
      }
      ghost var next := slot + 1;
      forall t | 0 <= t < 4 && row[t] != 0 ensures exists s :: WrittenBy(h, c, next, s, t) {
        if !(c.occupied[slot] && t == SlotOf(h, c.seed, c.keys[slot])) {
          assert before[t] != 0;
          var s :| WrittenBy(h, c, slot, s, t);
          assert WrittenBy(h, c, next, s, t);
        }
      }
    }
  }

  /** What a client and the memory node get out of a control plane: the cell of each stored key at its location,
      and no other cell in use. */
  ghost predicate Agrees(h: Hash, bs: Buckets, loc: Locator, stray: Stray, at: Places, seeds: seq<nat>, rows: seq<Row>)
    requires Indexed(bs, at)
  {
    && |seeds| == |rows| == |bs| > 0
    && (forall k :: k in at ==> CellOf(h, bs, loc, stray, at, seeds, rows, k))
    && (forall r, t :: OwnedCell(h, loc, stray, at, seeds, rows, r, t))
  }

  ghost predicate CellOf(h: Hash, bs: Buckets, loc: Locator, stray: Stray, at: Places, seeds: seq<nat>,
      rows: seq<Row>, k: Key)
    requires Indexed(bs, at) && |seeds| == |rows| > 0 && k in at
  {
    var p := LookupSlot(h, seeds, loc, stray, k);
    rows[p.bucket][p.slot] == BulkCell(Contents(bs, at)[k])
  }

  /** A cell in use is the location of a stored key. */
  ghost predicate OwnedCell(h: Hash, loc: Locator, stray: Stray, at: Places, seeds: seq<nat>, rows: seq<Row>, r: nat,
      t: nat)
    requires |seeds| == |rows| > 0
  {
    r < |rows| && t < 4 && rows[r][t] != 0 ==> exists k :: k in at && LookupSlot(h, seeds, loc, stray, k) == Pos(r, t)
  }

  /** Two stored keys are never sent to the same cell. */
  lemma LocationsAreDistinct(h: Hash, bs: Buckets, loc: Locator, stray: Stray, at: Places, seeds: seq<nat>, j: Key,
      k: Key)
    requires TableInv(h, bs, loc, at) && j in at && k in at && j != k
    requires |seeds| == |bs| && forall b :: 0 <= b < |bs| ==> seeds[b] == bs[b].seed
    ensures LookupSlot(h, seeds, loc, stray, j) != LookupSlot(h, seeds, loc, stray, k)
  {
    assert Has(bs, at[j].bucket, at[j].slot, j) && Has(bs, at[k].bucket, at[k].slot, k);
    if at[j].bucket == at[k].bucket {
      var c := bs[at[j].bucket];
      assert CollisionFree(h, c, c.seed);
      var s, t := if at[j].slot < at[k].slot then at[j].slot else at[k].slot,
          if at[j].slot < at[k].slot then at[k].slot else at[j].slot;
      assert SlotOf(h, c.seed, c.keys[s]) != SlotOf(h, c.seed, c.keys[t]);
    }
  }

  lemma RowsAgree(h: Hash, bs: Buckets, loc: Locator, stray: Stray, at: Places, seeds: seq<nat>, rows: seq<Row>)
    requires TableInv(h, bs, loc, at) && |seeds| == |rows| == |bs|
    requires forall b :: 0 <= b < |bs| ==> seeds[b] == bs[b].seed
    requires forall b :: 0 <= b < |bs| ==> RowHolds(h, bs[b], rows[b]) && NothingElse(h, bs[b], rows[b])
    ensures Agrees(h, bs, loc, stray, at, seeds, rows)
  {
    hide BulkCell;
    forall k | k in at ensures CellOf(h, bs, loc, stray, at, seeds, rows, k) {
      assert Has(bs, at[k].bucket, at[k].slot, k);
      assert RowHolds(h, bs[at[k].bucket], rows[at[k].bucket]);
    }
    forall r: nat, t: nat ensures OwnedCell(h, loc, stray, at, seeds, rows, r, t) {
      if r < |rows| && t < 4 && rows[r][t] != 0 {
        assert NothingElse(h, bs[r], rows[r]);
        var s: nat :| WrittenBy(h, bs[r], 4, s, t);
        assert Has(bs, r, s, bs[r].keys[s]);
        assert LookupSlot(h, seeds, loc, stray, bs[r].keys[s]) == Pos(r, t);
      }
    }
  }

  class DataPlane {
    const hash: Hash
    const stray: Stray
    var locator: Locator
    var seeds: seq<nat>

    constructor (hash: Hash, locator: Locator, stray: Stray, seeds: seq<nat>)
      ensures this.hash == hash && this.locator == locator && this.stray == stray && this.seeds == seeds
    {
      this.hash, this.locator, this.stray, this.seeds := hash, locator, stray, seeds;
    }

    method Lookup(k: Key) returns (b: nat, s: nat)
      requires |seeds| > 0
      ensures Pos(b, s) == LookupSlot(hash, seeds, locator, stray, k)
    {
      b := Candidate(hash, k, LocatorBit(locator, stray, k), |seeds|);
      s := SlotOf(hash, seeds[b], k);
    }

    /** Changes the client's copy of one bucket's seed. */
    method UpdateSeed(b: nat, seed: nat)
      requires b < |seeds|
      modifies this`seeds
      ensures seeds == old(seeds)[b := seed]
    {
      seeds := seeds[b := seed];
    }
  }

  /** The seed and the row of cells of every bucket. */
  method CompileBuckets(h: Hash, bs: Buckets) returns (seeds: seq<nat>, rows: seq<Row>)
    requires AllWellShaped(bs) && SeedsGood(h, bs)
    ensures |seeds| == |rows| == |bs|
    ensures forall b :: 0 <= b < |bs| ==> seeds[b] == bs[b].seed
    ensures forall b :: 0 <= b < |bs| ==> RowHolds(h, bs[b], rows[b]) && NothingElse(h, bs[b], rows[b])
  {
    hide RowHolds, NothingElse, CollisionFree;
    seeds, rows := [], [];
    for b := 0 to |bs|
      invariant |seeds| == |rows| == b
      invariant forall i :: 0 <= i < b ==> seeds[i] == bs[i].seed
      invariant forall i :: 0 <= i < b ==> RowHolds(h, bs[i], rows[i]) && NothingElse(h, bs[i], rows[i])
    {
      assert CollisionFree(h, bs[b], bs[b].seed);
      var row := CompileRow(h, bs[b]);
      seeds, rows := seeds + [bs[b].seed], rows + [row];
    }
  }

  /** Compiles a control plane: the rows of cells go to the memory node, the seeds and the locator to the
      client. The keyless look-up then finds the value of every stored key. */
  method Compile(cp: ControlPlane, stray: Stray) returns (dp: DataPlane, rows: seq<Row>)
    requires cp.Valid()
    ensures fresh(dp) && dp.hash == cp.hash && dp.locator == cp.locator && dp.stray == stray
    ensures |dp.seeds| == |cp.buckets| && forall b :: 0 <= b < |dp.seeds| ==> dp.seeds[b] == cp.buckets[b].seed
    ensures Agrees(cp.hash, cp.buckets, cp.locator, stray, cp.at, dp.seeds, rows)
  {
    hide Agrees, RowHolds, NothingElse;
    var seeds;
    seeds, rows := CompileBuckets(cp.hash, cp.buckets);
    RowsAgree(cp.hash, cp.buckets, cp.locator, stray, cp.at, seeds, rows);
    dp := new DataPlane(cp.hash, cp.locator, stray, seeds);
  }

  /** The cell found for each key of the map without any key comparison is that of its value; it decodes to the
      value exactly when the value fits 40 bits. */
  ghost predicate FindsAll(h: Hash, seeds: seq<nat>, loc: Locator, stray: Stray, rows: seq<Row>, m: map<Key, Value>) {
    && |seeds| == |rows| > 0
    && forall k :: k in m ==>
         var p := LookupSlot(h, seeds, loc, stray, k);
         rows[p.bucket][p.slot] == BulkCell(m[k]) && (Addr(rows[p.bucket][p.slot]) == m[k] <==> m[k] < 0x100_0000_0000)
  }

  /** Different keys have different cells. */
  ghost predicate CellsApart(h: Hash, seeds: seq<nat>, loc: Locator, stray: Stray, m: map<Key, Value>) {
    |seeds| > 0 && forall j, k :: j in m && k in m && j != k ==>
      LookupSlot(h, seeds, loc, stray, j) != LookupSlot(h, seeds, loc, stray, k)
  }

  lemma CompiledFindsAll(h: Hash, bs: Buckets, loc: Locator, stray: Stray, at: Places, seeds: seq<nat>, rows: seq<Row>)
    requires TableInv(h, bs, loc, at) && Agrees(h, bs, loc, stray, at, seeds, rows)
    requires forall b :: 0 <= b < |bs| ==> seeds[b] == bs[b].seed
    ensures FindsAll(h, seeds, loc, stray, rows, Contents(bs, at)) && CellsApart(h, seeds, loc, stray, Contents(bs, at))
  {
    hide BulkCell, Addr;
    var m := Contents(bs, at);
    forall k | k in m
      ensures CellOf(h, bs, loc, stray, at, seeds, rows, k) && (Addr(BulkCell(m[k])) == m[k] <==> m[k] < TWO_40)
    {
      BulkCellDecodes(m[k]);
    }
    forall j, k | j in m && k in m && j != k
      ensures LookupSlot(h, seeds, loc, stray, j) != LookupSlot(h, seeds, loc, stray, k)
    {
      LocationsAreDistinct(h, bs, loc, stray, at, seeds, j, k);
    }
  }

  /** The theorem of the design: build a table, run any operations on it, compile it. The keyless look-up then
      agrees with the abstract map. The run stops only at an insertion of a new key that cannot be placed in the table
      `bs`, `loc`, `at`, which holds the map so far. */
  method RunAndCompile(hash: Hash, room: Capacity, wanted: nat, ops: seq<Operation>, stray: Stray)
    returns (done: nat, why: Status, dp: DataPlane?, rows: seq<Row>, ghost bs: Buckets, ghost loc: Locator,
        ghost at: Places)
    requires Suitable(room)
    ensures done <= |ops|
    ensures done == |ops| ==>
      dp != null && FindsAll(dp.hash, dp.seeds, dp.locator, dp.stray, rows, ApplyAll(map[], ops))
      && CellsApart(dp.hash, dp.seeds, dp.locator, dp.stray, ApplyAll(map[], ops))
    ensures done < |ops| ==> ops[done].Insert? && Stuck(hash, room, bs, loc, at, ops[done].key, why)
    ensures done < |ops| ==> Contents(bs, at) == ApplyAll(map[], ops[..done])
  {
    hide TableInv, NothingInReach, Placeable, Stuck, FindsAll, CellsApart, Agrees, ApplyAll;
    dp, rows := null, [];
    var cp := new ControlPlane(hash, room, wanted);
    done, why, bs, loc, at := cp.Run(ops);
    if done == |ops| {
      dp, rows := Compile(cp, stray);
      CompiledFindsAll(hash, cp.buckets, cp.locator, stray, cp.at, dp.seeds, rows);
    } else {
      StuckShape(hash, room, bs, loc, at, ops[done].key, why);
    }
  }
}
