/** The memory node: rows of four cells that point into a packed array of records, one seed per row, and
    the PUT and GET handlers. A PUT that meets a taken slot may re-seed its whole row in place. */
module MemoryNode {
  import opened Hashing
  import opened LudoSlots

  type Fingerprint = f: nat | f < 128

  datatype Record = Record(key: Key, length: nat, data: Value)

  /** Outcome of a PUT as the handler sees it; `Halt` is the process exiting. */
  datatype Outcome =
    | Fresh              // the slot was empty
    | Overwritten        // the slot held this key
    | Reseeded(seed: nat) // the row was rearranged under a new seed
    | Spilled(clash: bool) // only the overflow cache has it: a fingerprint clash, or a full row
    | Halt
  {
    /** The reply value sent to the client. */
    function ReplyValue(): nat {
      match this
      case Fresh => 0
      case Overwritten => 1
      case Reseeded(seed) => 256 + seed
      case Spilled(clash) => if clash then 1 else 3
      case Halt => 4
    }

    predicate Stored() {
      Fresh? || Overwritten? || Reseeded?
    }
  }

  predicate Used(c: Cell) {
    Length(c) != 0
  }

  /** The record that a used cell points to belongs to a key that hashes to that cell's slot. */
  ghost predicate CellInPlace(h: Hash, seed: nat, row: Row, recs: seq<Record>, t: nat) {
    t < 4 && Used(row[t]) ==> Addr(row[t]) < |recs| && SlotOf(h, seed, recs[Addr(row[t])].key) == t
  }

  ghost predicate RowInPlace(h: Hash, seed: nat, row: Row, recs: seq<Record>) {
    forall t :: CellInPlace(h, seed, row, recs, t)
  }

  /** Two used cells never share a record. */
  ghost predicate Apart(rows: seq<Row>, r: nat, t: nat, r': nat, t': nat) {
    r < |rows| && r' < |rows| && t < 4 && t' < 4 && (r != r' || t != t') && Used(rows[r][t]) && Used(rows[r'][t'])
    ==> Addr(rows[r][t]) != Addr(rows[r'][t'])
  }

  ghost predicate AllApart(rows: seq<Row>) {
    forall r: nat, t: nat, r': nat, t': nat :: Apart(rows, r, t, r', t')
  }

  ghost predicate NodeInv(h: Hash, seeds: seq<nat>, rows: seq<Row>, recs: seq<Record>) {
    && |seeds| == |rows|
    && (forall r :: 0 <= r < |rows| ==> RowInPlace(h, seeds[r], rows[r], recs))
    && AllApart(rows)
  }

  /** A GET that goes to row `r` for key `k`, with the row's current seed, reads `v`; the cell is tagged `f`. */
  ghost predicate Readable(h: Hash, seeds: seq<nat>, rows: seq<Row>, recs: seq<Record>, r: nat, k: Key, v: Value,
      f: nat) {
    && r < |rows| == |seeds|
    && var c := rows[r][SlotOf(h, seeds[r], k)];
    && Used(c) && Addr(c) < |recs| && recs[Addr(c)].key == k && recs[Addr(c)].data == v && Finger(c) == f
  }

  // ----- the four-way classification -----

  predicate RowFull(row: Row) {
    forall i :: 0 <= i < 4 ==> Used(row[i])
  }

  /** 0: the slot is empty; 1: it carries the key's fingerprint; 2: it does not, but the row has an empty slot; 3:
      the row is full. */
  method CheckSlots(row: Row, slot: SlotIndex, fingerprint: nat) returns (status: nat)
    ensures status <= 3
    ensures status == 0 <==> !Used(row[slot])
    ensures status == 1 <==> Used(row[slot]) && Finger(row[slot]) == fingerprint
    ensures status == 2 ==> !RowFull(row)
    ensures status == 3 ==> RowFull(row)
  {
    hide Length, Finger;
    if !Used(row[slot]) {
      return 0;
    }
    if Finger(row[slot]) == fingerprint {
      return 1;
    }
    for i := 0 to 4
      invariant forall j :: 0 <= j < i ==> Used(row[j])
    {
      if !Used(row[i]) {
        return 2;
      }
    }
    return 3;
  }

  // ----- re-seeding a row -----

  /** The used cells among the first cells of a row, in slot order. */
  function UsedCells(cells: seq<Cell>): (r: seq<Cell>)
    ensures forall c :: c in r <==> c in cells && Used(c)
    ensures |r| <= |cells|
  {
    if cells == [] then []
    else
      var n := |cells| - 1;
      UsedCells(cells[..n]) + if Used(cells[n]) then [cells[n]] else []
  }

  method ReadBucketAddrs(row: Row) returns (cells: seq<Cell>)
    ensures cells == UsedCells(row)
  {
    hide Length;
    cells := [];
    for s := 0 to 4
      invariant cells == UsedCells(row[..s])
    {
      assert row[..s + 1][..s] == row[..s];
      if Used(row[s]) {
        cells := cells + [row[s]];
      }
    }
    assert row[..4] == row;
  }

  /** The seed sends the keys to pairwise different slots. */
  ghost predicate SeparatesKeys(h: Hash, seed: nat, keys: seq<Key>) {
    forall i, j :: 0 <= i < j < |keys| ==> SlotOf(h, seed, keys[i]) != SlotOf(h, seed, keys[j])
  }

  /** Some seed that the search tries separates the keys. */
  ghost predicate KeysSeparable(h: Hash, keys: seq<Key>) {
    exists t: nat :: t < 255 && SeparatesKeys(h, t, keys)
  }

  /** The keys of the records that the cells point to. */
  function KeysOf(cells: seq<Cell>, recs: seq<Record>): (keys: seq<Key>)
    ensures |keys| == |cells|
  {
    seq(|cells|, i requires 0 <= i < |cells| => if Addr(cells[i]) < |recs| then recs[Addr(cells[i])].key else 0)
  }

  /** Which way a PUT of a key goes: by the cell of its slot, and by whether its row has room. */
  datatype Branch = EmptySlot | SameKey | Clash | Rearrange | NoRoom

  function BranchOf(h: Hash, seed: nat, row: Row, recs: seq<Record>, k: Key, f: nat): (b: Branch) {
    var c := row[SlotOf(h, seed, k)];
    if !Used(c) then EmptySlot
    else if Finger(c) == f then if Addr(c) < |recs| && recs[Addr(c)].key == k then SameKey else Clash
    else if RowFull(row) then NoRoom
    else Rearrange
  }

  /** A further record changes neither the keys of the row nor the way a PUT goes. */
  lemma SameBranch(h: Hash, seed: nat, row: Row, recs: seq<Record>, rec: Record, k: Key, f: nat)
    requires forall t :: 0 <= t < 4 && Used(row[t]) ==> Addr(row[t]) < |recs|
    ensures BranchOf(h, seed, row, recs + [rec], k, f) == BranchOf(h, seed, row, recs, k, f)
    ensures KeysOf(UsedCells(row), recs + [rec]) == KeysOf(UsedCells(row), recs)
  {
    hide Length, Addr, Finger;
    forall i | 0 <= i < |UsedCells(row)| ensures Addr(UsedCells(row)[i]) < |recs| {
      assert UsedCells(row)[i] in UsedCells(row);
      var t :| 0 <= t < 4 && row[t] == UsedCells(row)[i];
    }
  }

  method TrySeed(h: Hash, seed: nat, keys: seq<Key>) returns (ok: bool)
    ensures ok <==> SeparatesKeys(h, seed, keys)
  {
    var taken := [false, false, false, false];
    for s := 0 to |keys|
      invariant |taken| == 4
      invariant forall i :: 0 <= i < s ==> taken[SlotOf(h, seed, keys[i])]
      invariant forall t: nat :: t < 4 && taken[t] ==> exists i :: 0 <= i < s && SlotOf(h, seed, keys[i]) == t
      invariant forall i, j :: 0 <= i < j < s ==> SlotOf(h, seed, keys[i]) != SlotOf(h, seed, keys[j])
    {
      var i := SlotOf(h, seed, keys[s]);
      if taken[i] {
        return false;
      }
      taken := taken[i := true];
    }
    return true;
  }

  /** Smallest separating seed below 255, or -1. */
  method SearchSeed(h: Hash, keys: seq<Key>) returns (seed: int)
    ensures -1 <= seed < 255
    ensures seed >= 0 ==> SeparatesKeys(h, seed, keys) && forall t :: 0 <= t < seed ==> !SeparatesKeys(h, t, keys)
    ensures seed == -1 <==> !KeysSeparable(h, keys)
  {
    for t := 0 to 255
      invariant forall u :: 0 <= u < t ==> !SeparatesKeys(h, u, keys)
    {
      var ok := TrySeed(h, t, keys);
      if ok {
        return t;
      }
    }
    return -1;
  }

  /** Empties the row and writes each cell at the slot its key hashes to. */
  method RewriteRow(h: Hash, seed: nat, keys: seq<Key>, cells: seq<Cell>) returns (row: Row)
    requires |keys| == |cells| && SeparatesKeys(h, seed, keys)
    ensures forall i :: 0 <= i < |cells| ==> row[SlotOf(h, seed, keys[i])] == cells[i]
    ensures forall t :: 0 <= t < 4 && row[t] != 0 ==> exists i ::
              0 <= i < |cells| && SlotOf(h, seed, keys[i]) == t && row[t] == cells[i]
    ensures row == Written(h, seed, keys, cells, |keys|)
  {
    row := EMPTY_ROW;
    for s := 0 to |keys|
      invariant row == Written(h, seed, keys, cells, s)
      invariant forall i :: 0 <= i < s ==> row[SlotOf(h, seed, keys[i])] == cells[i]
      invariant forall t :: 0 <= t < 4 && row[t] != 0 ==> exists i ::
                0 <= i < s && SlotOf(h, seed, keys[i]) == t && row[t] == cells[i]
    {
      ghost var before := row;
      row := row[SlotOf(h, seed, keys[s]) := cells[s]];
      forall t | 0 <= t < 4 && row[t] != 0
        ensures exists i :: 0 <= i < s + 1 && SlotOf(h, seed, keys[i]) == t && row[t] == cells[i]
      {
        if t != SlotOf(h, seed, keys[s]) {
          assert before[t] != 0;
        }
      }
    }
  }

  // ----- what a PUT does to the node -----

  /** Every used cell points below `n`. */
  ghost predicate PointBelow(rows: seq<Row>, n: nat) {
    forall r, t :: 0 <= r < |rows| && 0 <= t < 4 && Used(rows[r][t]) ==> Addr(rows[r][t]) < n
  }

  lemma CellsPointBelow(h: Hash, seeds: seq<nat>, rows: seq<Row>, recs: seq<Record>)
    requires NodeInv(h, seeds, rows, recs)
    ensures PointBelow(rows, |recs|)
  {
    hide Length, Addr, Finger;
    forall r, t | 0 <= r < |rows| && 0 <= t < 4 && Used(rows[r][t]) ensures Addr(rows[r][t]) < |recs| {
      assert RowInPlace(h, seeds[r], rows[r], recs) && CellInPlace(h, seeds[r], rows[r], recs, t);
    }
  }

  /** Whatever was readable for keys other than `k` still is. */
  ghost predicate KeepsOthers(h: Hash, seeds: seq<nat>, rows: seq<Row>, recs: seq<Record>,
                              seeds': seq<nat>, rows': seq<Row>, recs': seq<Record>, k: Key)
  {
    forall r, j, v, f :: j != k && Readable(h, seeds, rows, recs, r, j, v, f) ==>
        Readable(h, seeds', rows', recs', r, j, v, f)
  }

  /** A new record that no cell points to changes nothing. */
  lemma AppendKeeps(h: Hash, seeds: seq<nat>, rows: seq<Row>, recs: seq<Record>, rec: Record)
    requires NodeInv(h, seeds, rows, recs)
    ensures NodeInv(h, seeds, rows, recs + [rec])
    ensures forall r, j, v, f :: Readable(h, seeds, rows, recs, r, j, v, f) ==>
              Readable(h, seeds, rows, recs + [rec], r, j, v, f)
  {
    hide Length, Addr, Finger;
    forall r | 0 <= r < |rows| ensures RowInPlace(h, seeds[r], rows[r], recs + [rec]) {
      forall t ensures CellInPlace(h, seeds[r], rows[r], recs + [rec], t) {
        assert CellInPlace(h, seeds[r], rows[r], recs, t);
      }
    }
  }

  /** Pointing an empty slot at the newest record. */
  lemma FillSlotKeeps(h: Hash, seeds: seq<nat>, rows: seq<Row>, recs: seq<Record>, r: nat, k: Key, c: Cell)
    requires NodeInv(h, seeds, rows, recs) && r < |rows| && |recs| > 0
    requires !Used(rows[r][SlotOf(h, seeds[r], k)])
    requires Used(c) && Addr(c) == |recs| - 1 && recs[|recs| - 1].key == k
    requires PointBelow(rows, |recs| - 1)
    ensures var rows' := rows[r := rows[r][SlotOf(h, seeds[r], k) := c]];
      && NodeInv(h, seeds, rows', recs)
      && Readable(h, seeds, rows', recs, r, k, recs[|recs| - 1].data, Finger(c))
      && KeepsOthers(h, seeds, rows, recs, seeds, rows', recs, k)
  {
    hide Length, Addr, Finger;
    var slot := SlotOf(h, seeds[r], k);
    var rows' := rows[r := rows[r][slot := c]];
    forall q | 0 <= q < |rows'| ensures RowInPlace(h, seeds[q], rows'[q], recs) {
      forall t ensures CellInPlace(h, seeds[q], rows'[q], recs, t) {
        assert RowInPlace(h, seeds[q], rows[q], recs) && CellInPlace(h, seeds[q], rows[q], recs, t);
      }
    }
    forall a: nat, t: nat, b: nat, u: nat ensures Apart(rows', a, t, b, u) {
      assert Apart(rows, a, t, b, u);
    }
  }

  /** Overwriting the record of a used cell whose key is `k`. */
  lemma OverwriteKeeps(h: Hash, seeds: seq<nat>, rows: seq<Row>, recs: seq<Record>, r: nat, k: Key, rec: Record)
    requires NodeInv(h, seeds, rows, recs) && r < |rows|
    requires Used(rows[r][SlotOf(h, seeds[r], k)]) && rec.key == k
    requires var a := Addr(rows[r][SlotOf(h, seeds[r], k)]);
      a < |recs| && recs[a].key == k
    ensures var recs' := recs[Addr(rows[r][SlotOf(h, seeds[r], k)]) := rec];
      && NodeInv(h, seeds, rows, recs')
      && Readable(h, seeds, rows, recs', r, k, rec.data, Finger(rows[r][SlotOf(h, seeds[r], k)]))
      && KeepsOthers(h, seeds, rows, recs, seeds, rows, recs', k)
  {
    hide Length, Addr, Finger;
    var recs' := recs[Addr(rows[r][SlotOf(h, seeds[r], k)]) := rec];
    forall q | 0 <= q < |rows| ensures RowInPlace(h, seeds[q], rows[q], recs') {
      forall t ensures CellInPlace(h, seeds[q], rows[q], recs', t) {
        assert RowInPlace(h, seeds[q], rows[q], recs) && CellInPlace(h, seeds[q], rows[q], recs, t);
      }
    }
  }

  /** The new row holds the old row's used cells and the new cell, each where its key hashes. */
  ghost predicate Rearranged(h: Hash, seed: nat, old_: Row, new_: Row, recs: seq<Record>, k: Key, c: Cell) {
    && (forall s :: 0 <= s < 4 && Used(old_[s]) ==>
          Addr(old_[s]) < |recs| && new_[SlotOf(h, seed, recs[Addr(old_[s])].key)] == old_[s])
    && new_[SlotOf(h, seed, k)] == c
    && (forall t :: 0 <= t < 4 && Used(new_[t]) ==>
          (new_[t] == c && SlotOf(h, seed, k) == t) || FromOld(h, seed, old_, new_, recs, t))
  }

  ghost predicate FromOld(h: Hash, seed: nat, old_: Row, new_: Row, recs: seq<Record>, t: nat)
    requires t < 4
  {
    Addr(new_[t]) < |recs| && SlotOf(h, seed, recs[Addr(new_[t])].key) == t
    && exists s :: 0 <= s < 4 && Used(old_[s]) && new_[t] == old_[s]
  }

  /** Re-seeding one row, with a new cell for `k` that points at the newest record. */
  lemma ReseedKeeps(h: Hash, seeds: seq<nat>, rows: seq<Row>, recs: seq<Record>, r: nat, k: Key, c: Cell,
      seed: nat, row': Row)
    requires NodeInv(h, seeds, rows, recs) && r < |rows| && |recs| > 0
    requires Used(c) && Addr(c) == |recs| - 1 && recs[|recs| - 1].key == k
    requires PointBelow(rows, |recs| - 1)
    requires Rearranged(h, seed, rows[r], row', recs, k, c)
    ensures var seeds', rows' := seeds[r := seed], rows[r := row'];
      && NodeInv(h, seeds', rows', recs)
      && Readable(h, seeds', rows', recs, r, k, recs[|recs| - 1].data, Finger(c))
      && KeepsOthers(h, seeds, rows, recs, seeds', rows', recs, k)
  {
    hide Length, Addr, Finger;
    var seeds', rows' := seeds[r := seed], rows[r := row'];
    forall q | 0 <= q < |rows'| ensures RowInPlace(h, seeds'[q], rows'[q], recs) {
      forall t ensures CellInPlace(h, seeds'[q], rows'[q], recs, t) {
        if q != r {
          assert RowInPlace(h, seeds[q], rows[q], recs) && CellInPlace(h, seeds[q], rows[q], recs, t);
        }
      }
    }
    RearrangedApart(h, rows, recs, r, k, c, seed, row');
    forall q, j, v, f | j != k && Readable(h, seeds, rows, recs, q, j, v, f)
      ensures Readable(h, seeds', rows', recs, q, j, v, f)
    {
      if q == r {
        var cell := rows[r][SlotOf(h, seeds[r], j)];
        assert row'[SlotOf(h, seed, j)] == cell;
      }
    }
  }

  lemma RearrangedApart(h: Hash, rows: seq<Row>, recs: seq<Record>, r: nat, k: Key, c: Cell, seed: nat, row': Row)
    requires AllApart(rows)
    requires r < |rows| && |recs| > 0 && Used(c) && Addr(c) == |recs| - 1
    requires PointBelow(rows, |recs| - 1)
    requires Rearranged(h, seed, rows[r], row', recs, k, c)
    ensures AllApart(rows[r := row'])
  {
    hide Length, Addr, Finger;
    var rows' := rows[r := row'];
    forall a: nat, t: nat, b: nat, u: nat ensures Apart(rows', a, t, b, u) {
      if a < |rows| && b < |rows| && t < 4 && u < 4 && (a != b || t != u) && Used(rows'[a][t]) && Used(rows'[b][u]) {
        var s := OriginSlot(h, rows, recs, r, k, c, seed, row', a, t);
        var w := OriginSlot(h, rows, recs, r, k, c, seed, row', b, u);
        if s < 4 && w < 4 { assert Apart(rows, a, s, b, w); }
      }
    }
  }

  /** Where in the old table a cell of the new table comes from; 4 for the new cell. */
  lemma OriginSlot(h: Hash, rows: seq<Row>, recs: seq<Record>, r: nat, k: Key, c: Cell, seed: nat, row': Row,
      a: nat, t: nat) returns (s: nat)
    requires r < |rows| && a < |rows| && t < 4 && Used(rows[r := row'][a][t])
    requires Rearranged(h, seed, rows[r], row', recs, k, c)
    ensures s <= 4 && (a != r ==> s == t)
    ensures s < 4 ==> Used(rows[a][s]) && rows[r := row'][a][t] == rows[a][s]
    ensures s == 4 ==> a == r && rows[r := row'][a][t] == c && t == SlotOf(h, seed, k)
    ensures s < 4 && a == r ==> Addr(rows[r][s]) < |recs| && t == SlotOf(h, seed, recs[Addr(rows[r][s])].key)
  {
    hide Length, Addr, Finger;
    if a != r {
      s := t;
    } else if row'[t] == c && SlotOf(h, seed, k) == t {
      s := 4;
    } else {
      assert FromOld(h, seed, rows[r], row', recs, t);
      s :| 0 <= s < 4 && Used(rows[r][s]) && row'[t] == rows[r][s];
    }
  }

  /** Marking a cell as cached moves nothing. */
  lemma MarkKeeps(h: Hash, seeds: seq<nat>, rows: seq<Row>, recs: seq<Record>, r: nat, s: SlotIndex)
    requires NodeInv(h, seeds, rows, recs) && r < |rows|
    ensures var rows' := rows[r := rows[r][s := SetCacheBit(rows[r][s])]];
      && NodeInv(h, seeds, rows', recs)
      && forall q, j, v, f :: Readable(h, seeds, rows, recs, q, j, v, f) ==> Readable(h, seeds, rows', recs, q, j, v, f)
  {
    hide Length, Addr, Finger;
    var rows' := rows[r := rows[r][s := SetCacheBit(rows[r][s])]];
    CacheBitOnly(rows[r][s]);
    forall q | 0 <= q < |rows'| ensures RowInPlace(h, seeds[q], rows'[q], recs) {
      forall t ensures CellInPlace(h, seeds[q], rows'[q], recs, t) {
        assert RowInPlace(h, seeds[q], rows[q], recs) && CellInPlace(h, seeds[q], rows[q], recs, t);
      }
    }
    forall a: nat, t: nat, b: nat, u: nat ensures Apart(rows', a, t, b, u) {
      assert Apart(rows, a, t, b, u);
    }
  }

  /** The rewritten row is a rearrangement of the old one plus the new cell. */
  lemma RewrittenIsRearranged(h: Hash, seed: nat, row: Row, row': Row, recs: seq<Record>, cells: seq<Cell>,
      keys: seq<Key>, k: Key, c: Cell)
    requires |keys| == |cells|
    requires forall i :: 0 <= i < |cells| ==> Addr(cells[i]) < |recs| && keys[i] == recs[Addr(cells[i])].key
    requires forall s :: 0 <= s < 4 && Used(row[s]) ==> row[s] in cells
    requires forall x :: x in cells ==> x in row && Used(x)
    requires forall i :: 0 <= i < |cells| + 1 ==> row'[SlotOf(h, seed, (keys + [k])[i])] == (cells + [c])[i]
    requires forall t :: 0 <= t < 4 && row'[t] != 0 ==>
      exists i :: 0 <= i < |cells| + 1 && SlotOf(h, seed, (keys + [k])[i]) == t && row'[t] == (cells + [c])[i]
    ensures Rearranged(h, seed, row, row', recs, k, c)
  {
    hide Addr, Finger;
    assert !Used(0);
    hide Length;
    forall s | 0 <= s < 4 && Used(row[s])
      ensures Addr(row[s]) < |recs| && row'[SlotOf(h, seed, recs[Addr(row[s])].key)] == row[s]
    {
      var i :| 0 <= i < |cells| && cells[i] == row[s];
      assert (keys + [k])[i] == keys[i] && (cells + [c])[i] == cells[i];
    }
    assert (keys + [k])[|cells|] == k && (cells + [c])[|cells|] == c;
    forall t | 0 <= t < 4 && Used(row'[t])
      ensures (row'[t] == c && SlotOf(h, seed, k) == t) || FromOld(h, seed, row, row', recs, t)
    {
      var i :| 0 <= i < |cells| + 1 && SlotOf(h, seed, (keys + [k])[i]) == t && row'[t] == (cells + [c])[i];
      if i < |cells| {
        assert cells[i] in row && Used(cells[i]);
        var s :| 0 <= s < 4 && row[s] == cells[i];
        assert FromOld(h, seed, row, row', recs, t);
      }
    }
  }

  /** If the key already has a record in the row, it would appear twice among the keys to separate, and no seed
      separates a key from itself. */
  lemma DuplicateKey(h: Hash, seeds: seq<nat>, rows: seq<Row>, recs: seq<Record>, r: nat, k: Key, w: Value, f: nat)
    requires Readable(h, seeds, rows, recs, r, k, w, f)
    ensures !KeysSeparable(h, KeysOf(UsedCells(rows[r]), recs) + [k])
  {
    hide Length, Addr, Finger;
    var cells := UsedCells(rows[r]);
    var keys := KeysOf(cells, recs) + [k];
    assert rows[r][SlotOf(h, seeds[r], k)] in rows[r];
    var i :| 0 <= i < |cells| && cells[i] == rows[r][SlotOf(h, seeds[r], k)];
    forall t: nat ensures !SeparatesKeys(h, t, keys) {
      assert keys[i] == k && keys[|cells|] == k;
    }
  }

  /** A key that is readable under a foreign tag has no way in: no PUT overwrites it, and no seed makes room for it. */
  lemma ForeignTag(h: Hash, seeds: seq<nat>, rows: seq<Row>, recs: seq<Record>, r: nat, k: Key, w: Value, f: nat,
      fp: nat)
    requires Readable(h, seeds, rows, recs, r, k, w, f) && f != fp
    ensures BranchOf(h, seeds[r], rows[r], recs, k, fp) == if RowFull(rows[r]) then NoRoom else Rearrange
    ensures !KeysSeparable(h, KeysOf(UsedCells(rows[r]), recs) + [k])
  {
    DuplicateKey(h, seeds, rows, recs, r, k, w, f);
  }

  // ----- the handler as a function -----

  /** The whole state of a node: seeds and rows, the records in use, and what the overflow cache has been given. */
  datatype Node = Node(seeds: seq<nat>, rows: seq<Row>, recs: seq<Record>, overflow: seq<(Key, Value)>)

  /** The first seed from `t` on that separates the keys, or 255. */
  ghost function FirstSeed(h: Hash, keys: seq<Key>, t: nat): (seed: nat)
    requires t <= 255
    decreases 255 - t
  {
    if t == 255 || SeparatesKeys(h, t, keys) then t else FirstSeed(h, keys, t + 1)
  }

  lemma {:induction false} FirstSeedIs(h: Hash, keys: seq<Key>, t: nat, seed: nat)
    requires t <= seed < 255 && SeparatesKeys(h, seed, keys)
    requires forall u :: 0 <= u < seed ==> !SeparatesKeys(h, u, keys)
    ensures FirstSeed(h, keys, t) == seed
    decreases 255 - t
  {
    hide SeparatesKeys;
    if t < seed { FirstSeedIs(h, keys, t + 1, seed); }
  }

  /** A row with the first `n` cells written at the slots their keys hash to. */
  function Written(h: Hash, seed: nat, keys: seq<Key>, cells: seq<Cell>, n: nat): (row: Row)
    requires n <= |keys| == |cells|
  {
    if n == 0 then EMPTY_ROW else Written(h, seed, keys, cells, n - 1)[SlotOf(h, seed, keys[n - 1]) := cells[n - 1]]
  }

  /** The outcome of a PUT of `k`, with fingerprint `f`, to row `r`, for an array of `capacity` records. */
  ghost function OutcomeAt(h: Hash, n: Node, capacity: nat, r: nat, k: Key, f: nat): (out: Outcome)
    requires r < |n.rows| == |n.seeds|
  {
    var branch := BranchOf(h, n.seeds[r], n.rows[r], n.recs, k, f);
    var keys := KeysOf(UsedCells(n.rows[r]), n.recs) + [k];
    if |n.recs| >= capacity && !branch.SameKey? then Halt
    else match branch
      case EmptySlot => Fresh
      case SameKey => Overwritten
      case Clash => Spilled(true)
      case NoRoom => Spilled(false)
      case Rearrange => if KeysSeparable(h, keys) then Reseeded(FirstSeed(h, keys, 0)) else Halt
  }

  /** The node after that PUT of `v`; the client has asked for slot `s` of the row. */
  ghost function NodeAt(h: Hash, n: Node, capacity: nat, r: nat, s: SlotIndex, k: Key, v: Value, f: nat): (m: Node)
    requires r < |n.rows| == |n.seeds|
  {
    var slot, cell := SlotOf(h, n.seeds[r], k), Combine(f, 64, |n.recs|);
    var cells := UsedCells(n.rows[r]) + [cell];
    var keys := KeysOf(UsedCells(n.rows[r]), n.recs) + [k];
    var loaded := if |n.recs| < capacity then n.(recs := n.recs + [Record(k, 8, v)]) else n;
    match OutcomeAt(h, n, capacity, r, k, f)
    case Fresh => loaded.(rows := n.rows[r := n.rows[r][slot := cell]])
    case Overwritten =>
      var addr := Addr(n.rows[r][slot]);
      if addr < |n.recs| then n.(recs := n.recs[addr := Record(k, 64, v)]) else n
    case Reseeded(seed) =>
      loaded.(seeds := n.seeds[r := seed], rows := n.rows[r := Written(h, seed, keys, cells, |keys|)])
    case Spilled(clash) =>
      loaded.(overflow := n.overflow + [(k, v)],
              rows := if clash then n.rows else n.rows[r := n.rows[r][s := SetCacheBit(n.rows[r][s])]])
    case Halt =>
      var branch := BranchOf(h, n.seeds[r], n.rows[r], n.recs, k, f);
      if branch.Clash? || branch.NoRoom? then loaded.(overflow := n.overflow + [(k, v)]) else loaded
  }

  // ----- the outcome, read off the cells and the records -----

  /** The key of the record that a cell points to. */
  function KeyAt(recs: seq<Record>, c: Cell): (k: Key) {
    if Addr(c) < |recs| then recs[Addr(c)].key else 0
  }

  /** Under seed `t` the keys of the row's used cells and `k` go to different slots. */
  ghost predicate SeedSeparates(h: Hash, t: nat, row: Row, recs: seq<Record>, k: Key) {
    && (forall i, j :: 0 <= i < j < 4 && Length(row[i]) != 0 && Length(row[j]) != 0 ==>
         SlotOf(h, t, KeyAt(recs, row[i])) != SlotOf(h, t, KeyAt(recs, row[j])))
    && (forall i :: 0 <= i < 4 && Length(row[i]) != 0 ==> SlotOf(h, t, KeyAt(recs, row[i])) != SlotOf(h, t, k))
  }

  ghost predicate SomeSeedSeparates(h: Hash, row: Row, recs: seq<Record>, k: Key) {
    exists t: nat :: t < 255 && SeedSeparates(h, t, row, recs, k)
  }

  /** What a PUT of `k` with fingerprint `f` to row `r` comes to: `c` is the cell of the key's slot. */
  ghost predicate OutcomeOnCells(h: Hash, n: Node, capacity: nat, r: nat, k: Key, f: nat, out: Outcome)
    requires r < |n.rows| == |n.seeds|
  {
    var row := n.rows[r];
    var c := row[SlotOf(h, n.seeds[r], k)];
    var taken, tagged, mine := Length(c) != 0, Finger(c) == f, Addr(c) < |n.recs| && n.recs[Addr(c)].key == k;
    var room := Length(row[0]) == 0 || Length(row[1]) == 0 || Length(row[2]) == 0 || Length(row[3]) == 0;
    var seed := SomeSeedSeparates(h, row, n.recs, k);
    && (out.Overwritten? <==> taken && tagged && mine)
    && (|n.recs| >= capacity ==> (out.Halt? <==> !out.Overwritten?))
    && (|n.recs| < capacity ==>
         && (out.Fresh? <==> !taken)
         && (out == Spilled(true) <==> taken && tagged && !mine)
         && (out == Spilled(false) <==> taken && !tagged && !room)
         && (out.Reseeded? <==> taken && !tagged && room && seed)
         && (out.Halt? <==> taken && !tagged && room && !seed))
    && (out.Reseeded? ==> out.seed < 255 && SeedSeparates(h, out.seed, row, n.recs, k)
                          && forall t: nat :: t < out.seed ==> !SeedSeparates(h, t, row, n.recs, k))
  }

  /** The list with one element, if it is kept. */
  function Keep<T>(kept: bool, x: T): (r: seq<T>) {
    if kept then [x] else []
  }

  lemma OneMoreCell(cells: seq<Cell>, c: Cell)
    ensures UsedCells(cells + [c]) == UsedCells(cells) + Keep(Length(c) != 0, c)
  {
    hide Length;
    assert (cells + [c])[..|cells|] == cells;
  }

  /** The used cells of a row, cell by cell. */
  lemma FourCells(row: Row)
    ensures UsedCells(row) == Keep(Length(row[0]) != 0, row[0]) + Keep(Length(row[1]) != 0, row[1])
                              + Keep(Length(row[2]) != 0, row[2]) + Keep(Length(row[3]) != 0, row[3])
  {
    hide Length, UsedCells, Keep;
    var a, b, c, d := row[0], row[1], row[2], row[3];
    assert row == [] + [a] + [b] + [c] + [d];
    OneMoreCell([], a);
    OneMoreCell([] + [a], b);
    OneMoreCell([] + [a] + [b], c);
    OneMoreCell([] + [a] + [b] + [c], d);
    NoCells();
    assert [] + Keep(Length(a) != 0, a) == Keep(Length(a) != 0, a);
  }

  lemma NoCells()
    ensures UsedCells([]) == []
  {
  }

  lemma KeysOfKept(a: seq<Cell>, kept: bool, c: Cell, recs: seq<Record>)
    ensures KeysOf(a + Keep(kept, c), recs) == KeysOf(a, recs) + Keep(kept, KeyAt(recs, c))
  {
    hide Addr;
  }

  lemma OneMoreKey(h: Hash, t: nat, a: seq<Key>, kept: bool, x: Key)
    ensures SeparatesKeys(h, t, a + Keep(kept, x)) <==>
      SeparatesKeys(h, t, a) && (kept ==> forall y :: y in a ==> SlotOf(h, t, y) != SlotOf(h, t, x))
    ensures forall y :: y in a + Keep(kept, x) <==> y in a || (kept && y == x)
  {
    var b := a + Keep(kept, x);
    assert forall i :: 0 <= i < |a| ==> b[i] == a[i];
    if kept {
      assert b[|a|] == x;
      if SeparatesKeys(h, t, b) {
        forall y | y in a ensures SlotOf(h, t, y) != SlotOf(h, t, x) {
          var i :| 0 <= i < |a| && a[i] == y;
          assert SlotOf(h, t, b[i]) != SlotOf(h, t, b[|a|]);
        }
        forall i, j | 0 <= i < j < |a| ensures SlotOf(h, t, a[i]) != SlotOf(h, t, a[j]) {
          assert SlotOf(h, t, b[i]) != SlotOf(h, t, b[j]);
        }
      }
    } else {
      assert b == a;
    }
  }

  /** Separating the list of keys that a re-seeding gathers is separating the row and the key. */
  lemma GatheredKeys(h: Hash, t: nat, row: Row, recs: seq<Record>, k: Key)
    ensures SeparatesKeys(h, t, KeysOf(UsedCells(row), recs) + [k]) <==> SeedSeparates(h, t, row, recs, k)
  {
    hide Length, Addr, UsedCells, KeysOf, KeyAt, SeparatesKeys, SlotOf;
    var u0, u1, u2, u3 := Length(row[0]) != 0, Length(row[1]) != 0, Length(row[2]) != 0, Length(row[3]) != 0;
    var x0, x1, x2, x3 := KeyAt(recs, row[0]), KeyAt(recs, row[1]), KeyAt(recs, row[2]), KeyAt(recs, row[3]);
    FourKeys(row, recs);
    NoKeys(h, t);
    var a1 := [] + Keep(u0, x0);
    var a2 := a1 + Keep(u1, x1);
    var a3 := a2 + Keep(u2, x2);
    var a4 := a3 + Keep(u3, x3);
    OneMoreKey(h, t, [], u0, x0);
    OneMoreKey(h, t, a1, u1, x1);
    OneMoreKey(h, t, a2, u2, x2);
    OneMoreKey(h, t, a3, u3, x3);
    OneMoreKey(h, t, a4, true, k);
    assert Keep(true, k) == [k];
    FourPairs(h, t, row, recs, k);
  }

  lemma NoKeys(h: Hash, t: nat)
    ensures SeparatesKeys(h, t, [])
  {
  }

  lemma FourKeys(row: Row, recs: seq<Record>)
    ensures KeysOf(UsedCells(row), recs) ==
      [] + Keep(Length(row[0]) != 0, KeyAt(recs, row[0])) + Keep(Length(row[1]) != 0, KeyAt(recs, row[1]))
      + Keep(Length(row[2]) != 0, KeyAt(recs, row[2])) + Keep(Length(row[3]) != 0, KeyAt(recs, row[3]))
  {
    hide Length, Addr, UsedCells, KeysOf, KeyAt, Keep;
    var k0, k1 := Keep(Length(row[0]) != 0, row[0]), Keep(Length(row[1]) != 0, row[1]);
    var k2 := Keep(Length(row[2]) != 0, row[2]);
    FourCells(row);
    assert [] + k0 == k0;
    KeysOfNothing(recs);
    KeysOfKept([], Length(row[0]) != 0, row[0], recs);
    KeysOfKept(k0, Length(row[1]) != 0, row[1], recs);
    KeysOfKept(k0 + k1, Length(row[2]) != 0, row[2], recs);
    KeysOfKept(k0 + k1 + k2, Length(row[3]) != 0, row[3], recs);
  }

  lemma KeysOfNothing(recs: seq<Record>)
    ensures KeysOf([], recs) == []
  {
  }

  /** The ten pairs of the definition. */
  lemma FourPairs(h: Hash, t: nat, row: Row, recs: seq<Record>, k: Key)
    ensures SeedSeparates(h, t, row, recs, k) <==>
      var u0, u1, u2, u3 := Length(row[0]) != 0, Length(row[1]) != 0, Length(row[2]) != 0, Length(row[3]) != 0;
      var s0, s1 := SlotOf(h, t, KeyAt(recs, row[0])), SlotOf(h, t, KeyAt(recs, row[1]));
      var s2, s3 := SlotOf(h, t, KeyAt(recs, row[2])), SlotOf(h, t, KeyAt(recs, row[3]));
      var s := SlotOf(h, t, k);
      && (u0 && u1 ==> s0 != s1) && (u0 && u2 ==> s0 != s2) && (u0 && u3 ==> s0 != s3)
      && (u1 && u2 ==> s1 != s2) && (u1 && u3 ==> s1 != s3) && (u2 && u3 ==> s2 != s3)
      && (u0 ==> s0 != s) && (u1 ==> s1 != s) && (u2 ==> s2 != s) && (u3 ==> s3 != s)
  {
    hide Length, KeyAt, SlotOf;
  }

  lemma OutcomeIsOnCells(h: Hash, n: Node, capacity: nat, r: nat, k: Key, f: nat)
    requires r < |n.rows| == |n.seeds|
    ensures OutcomeOnCells(h, n, capacity, r, k, f, OutcomeAt(h, n, capacity, r, k, f))
  {
    hide Length, Addr, Finger, SeedSeparates, SeparatesKeys, UsedCells, KeysOf;
    var row := n.rows[r];
    var keys := KeysOf(UsedCells(row), n.recs) + [k];
    forall t: nat ensures SeparatesKeys(h, t, keys) <==> SeedSeparates(h, t, row, n.recs, k) {
      GatheredKeys(h, t, row, n.recs, k);
    }
    if KeysSeparable(h, keys) { FirstSeedFound(h, keys, 0); }
  }

  /** What that PUT of `v` leaves behind: the record it wrote, the overflow cache, and the cells of row `r`. */
  ghost predicate NodeOnCells(h: Hash, n: Node, capacity: nat, r: nat, s: SlotIndex, k: Key, v: Value, f: nat,
      out: Outcome, m: Node)
    requires r < |n.rows| == |n.seeds|
  {
    var row := n.rows[r];
    var slot := SlotOf(h, n.seeds[r], k);
    var c := row[slot];
    var room := Length(row[0]) == 0 || Length(row[1]) == 0 || Length(row[2]) == 0 || Length(row[3]) == 0;
    var spills := Length(c) != 0 && if Finger(c) == f then KeyAt(n.recs, c) != k || Addr(c) >= |n.recs| else !room;
    var added := 0x8000_0000_0000_0000 + f % 0x80 * 0x100_0000_0000_0000 + 64 * 0x100_0000_0000
      + |n.recs| % 0x100_0000_0000;
    && |m.rows| == |n.rows|
    && m.recs == (if out.Overwritten? && Addr(c) < |n.recs| then n.recs[Addr(c) := Record(k, 64, v)]
                  else if |n.recs| >= capacity then n.recs else n.recs + [Record(k, 8, v)])
    && m.overflow == (if spills then n.overflow + [(k, v)] else n.overflow)
    && m.seeds == (if out.Reseeded? then n.seeds[r := out.seed] else n.seeds)
    && (forall q :: 0 <= q < |n.rows| && q != r ==> m.rows[q] == n.rows[q])
    && (out.Fresh? ==> m.rows[r] == row[slot := added])
    && (out.Overwritten? || out == Spilled(true) || out.Halt? ==> m.rows[r] == row)
    && (out == Spilled(false) ==>
         m.rows[r] == row[s := row[s] % 0x8000_0000_0000_0000 + 0x8000_0000_0000_0000])
    && (out.Reseeded? ==>
         && m.rows[r][SlotOf(h, out.seed, k)] == added
         && (forall i :: 0 <= i < 4 && Length(row[i]) != 0 ==>
              m.rows[r][SlotOf(h, out.seed, KeyAt(n.recs, row[i]))] == row[i])
         && (forall t :: 0 <= t < 4 && m.rows[r][t] != 0 ==> m.rows[r][t] == added || m.rows[r][t] in row))
  }

  lemma NodeIsOnCells(h: Hash, n: Node, capacity: nat, r: nat, s: SlotIndex, k: Key, v: Value, f: nat)
    requires r < |n.rows| == |n.seeds|
    ensures NodeOnCells(h, n, capacity, r, s, k, v, f, OutcomeAt(h, n, capacity, r, k, f),
                NodeAt(h, n, capacity, r, s, k, v, f))
  {
    hide Length, Addr, Finger, SeparatesKeys, UsedCells, KeysOf, SetCacheBit, Combine;
    var row := n.rows[r];
    var cells, keys := UsedCells(row), KeysOf(UsedCells(row), n.recs);
    var added := Combine(f, 64, |n.recs|);
    AddedCell(f, |n.recs|);
    CacheBitSet(row[s]);
    var out := OutcomeAt(h, n, capacity, r, k, f);
    if out.Reseeded? {
      FirstSeedFound(h, keys + [k], 0);
      RewrittenRow(h, out.seed, row, n.recs, k, added);
    }
  }

  lemma AddedCell(f: nat, n: nat)
    ensures Combine(f, 64, n) == 0x8000_0000_0000_0000 + f % 0x80 * 0x100_0000_0000_0000 + 64 * 0x100_0000_0000
                                 + n % 0x100_0000_0000
  {
  }

  lemma CacheBitSet(c: Cell)
    ensures SetCacheBit(c) == c % 0x8000_0000_0000_0000 + 0x8000_0000_0000_0000
  {
  }

  /** A row written anew has every used cell, and the added one, where its key hashes to, and nothing else. */
  lemma RewrittenRow(h: Hash, seed: nat, row: Row, recs: seq<Record>, k: Key, added: Cell)
    requires SeparatesKeys(h, seed, KeysOf(UsedCells(row), recs) + [k])
    ensures var keys, cells := KeysOf(UsedCells(row), recs) + [k], UsedCells(row) + [added];
      var row' := Written(h, seed, keys, cells, |keys|);
      && row'[SlotOf(h, seed, k)] == added
      && (forall i :: 0 <= i < 4 && Length(row[i]) != 0 ==> row'[SlotOf(h, seed, KeyAt(recs, row[i]))] == row[i])
      && (forall t :: 0 <= t < 4 && row'[t] != 0 ==> row'[t] == added || row'[t] in row)
  {
    hide Length, SeparatesKeys, UsedCells, KeysOf, KeyAt;
    var keys, cells := KeysOf(UsedCells(row), recs) + [k], UsedCells(row) + [added];
    var row' := Written(h, seed, keys, cells, |keys|);
    var m := |UsedCells(row)|;
    WrittenCells(h, seed, keys, cells, |keys|);
    hide Written;
    assert keys[m] == k && cells[m] == added;
    forall i | 0 <= i < 4 && Length(row[i]) != 0 ensures row'[SlotOf(h, seed, KeyAt(recs, row[i]))] == row[i] {
      KeyOfCell(row, recs, i);
      var j :| 0 <= j < m && UsedCells(row)[j] == row[i] && KeysOf(UsedCells(row), recs)[j] == KeyAt(recs, row[i]);
      assert keys[j] == KeyAt(recs, row[i]) && cells[j] == row[i];
    }
  }

  /** A used cell of the row is among those gathered, with its key at the same place. */
  lemma KeyOfCell(row: Row, recs: seq<Record>, i: nat)
    requires i < 4 && Length(row[i]) != 0
    ensures exists j :: 0 <= j < |UsedCells(row)| && UsedCells(row)[j] == row[i]
                        && KeysOf(UsedCells(row), recs)[j] == KeyAt(recs, row[i])
  {
    hide Length, Addr;
    assert row[i] in UsedCells(row);
    var j :| 0 <= j < |UsedCells(row)| && UsedCells(row)[j] == row[i];
    assert KeysOf(UsedCells(row), recs)[j] == KeyAt(recs, row[i]);
  }

  /** Under a separating seed every cell written stays, and nothing else is in the row. */
  lemma {:induction false} WrittenCells(h: Hash, seed: nat, keys: seq<Key>, cells: seq<Cell>, n: nat)
    requires n <= |keys| == |cells| && SeparatesKeys(h, seed, keys)
    ensures var row := Written(h, seed, keys, cells, n);
      && (forall i :: 0 <= i < n ==> row[SlotOf(h, seed, keys[i])] == cells[i])
      && (forall t :: 0 <= t < 4 && row[t] != 0 ==> row[t] in cells)
  {
    if n > 0 {
      WrittenCells(h, seed, keys, cells, n - 1);
      assert forall i :: 0 <= i < n - 1 ==> SlotOf(h, seed, keys[i]) != SlotOf(h, seed, keys[n - 1]);
    }
  }

  lemma {:induction false} FirstSeedFound(h: Hash, keys: seq<Key>, t: nat)
    requires t < 255 && exists u: nat :: t <= u < 255 && SeparatesKeys(h, u, keys)
    ensures var seed := FirstSeed(h, keys, t);
      t <= seed < 255 && SeparatesKeys(h, seed, keys) && forall u: nat :: t <= u < seed ==> !SeparatesKeys(h, u, keys)
    decreases 255 - t
  {
    hide SeparatesKeys;
    if !SeparatesKeys(h, t, keys) { FirstSeedFound(h, keys, t + 1); }
  }

  /** The slot that the client asked for matters only when the row is full. */
  lemma SlotMatters(h: Hash, n: Node, capacity: nat, r: nat, s: SlotIndex, s': SlotIndex, k: Key, v: Value, f: nat)
    requires r < |n.rows| == |n.seeds| && OutcomeAt(h, n, capacity, r, k, f) != Spilled(false)
    ensures NodeAt(h, n, capacity, r, s, k, v, f) == NodeAt(h, n, capacity, r, s', k, v, f)
  {
    hide OutcomeAt, BranchOf, Addr, Finger, Combine;
  }

  class Server {
    const hash: Hash
    const fingerprint: Key -> Fingerprint
    /** The packed array of records; entries from `num` on are unused. */
    const packed: array<Record>
    var num: nat
    var seeds: seq<nat>
    var rows: seq<Row>
    /** Pairs handed to the overflow cache. */
    var overflow: seq<(Key, Value)>

    ghost predicate Valid()
      reads this, packed
    {
      && num <= packed.Length <= TWO_32
      && |seeds| == |rows|
      && NodeInv(hash, seeds, rows, packed[..num])
    }

    /** A node without rows and records. */
    constructor (hash: Hash, fingerprint: Key -> Fingerprint, capacity: nat)
      requires capacity <= TWO_32
      ensures Valid() && num == 0 && packed.Length == capacity && seeds == [] && rows == [] && overflow == []
      ensures this.hash == hash && this.fingerprint == fingerprint && fresh(packed)
    {
      this.hash, this.fingerprint := hash, fingerprint;
      packed := new Record[capacity](_ => Record(0, 0, 0));
      num, seeds, rows, overflow := 0, [], [], [];
    }

    ghost function Snapshot(): (n: Node)
      requires num <= packed.Length
      reads this, packed
    {
      Node(seeds, rows, packed[..num], overflow)
    }

    ghost function BranchFor(r: nat, k: Key): (b: Branch)
      requires r < |rows| == |seeds| && num <= packed.Length
      reads this, packed
    {
      BranchOf(hash, seeds[r], rows[r], packed[..num], k, fingerprint(k))
    }

    /** Some seed separates the keys of the row and `k`. */
    ghost predicate CanReseed(r: nat, k: Key)
      requires r < |rows| && num <= packed.Length
      reads this, packed
    {
      KeysSeparable(hash, KeysOf(UsedCells(rows[r]), packed[..num]) + [k])
    }

    /** A PUT of `k` to row `r` makes the process exit: the array is full, or the row would need a seed that does not
        exist; a key stored under its own fingerprint is safe from both. */
    ghost predicate MustHalt(r: nat, k: Key)
      requires r < |rows| == |seeds| && num <= packed.Length
      reads this, packed
    {
      !BranchFor(r, k).SameKey? && (num == packed.Length || (BranchFor(r, k).Rearrange? && !CanReseed(r, k)))
    }

    /** A GET for key `k` that goes to row `r` under the row's current seed reads `v`, from a cell tagged `f`. */
    ghost predicate Reads(r: nat, k: Key, v: Value, f: nat)
      requires num <= packed.Length
      reads this, packed
    {
      Readable(hash, seeds, rows, packed[..num], r, k, v, f)
    }

    /** Every GET that worked for keys other than `k` still works. */
    twostate predicate OthersKept(k: Key)
      requires old(num) <= packed.Length && num <= packed.Length
      reads this, packed
    {
      forall r, j, v, f :: j != k && old(Reads(r, j, v, f)) ==> Reads(r, j, v, f)
    }

    twostate predicate AllKept()
      requires old(num) <= packed.Length && num <= packed.Length
      reads this, packed
    {
      forall r, j, v, f :: old(Reads(r, j, v, f)) ==> Reads(r, j, v, f)
    }

    /** The outcome and the whole state are those of the handler as a function; `s` is the slot the client asked for. */
    twostate predicate AsSpecified(r: nat, s: SlotIndex, k: Key, v: Value, out: Outcome)
      requires old(num) <= packed.Length && num <= packed.Length && r < |old(rows)| == |old(seeds)|
      reads this, packed
    {
      && out == OutcomeAt(hash, old(Snapshot()), packed.Length, r, k, fingerprint(k))
      && Snapshot() == NodeAt(hash, old(Snapshot()), packed.Length, r, s, k, v, fingerprint(k))
    }

    /** Appends a record; `false` is the process exiting because the array is full. */
    method BulkLoad(rec: Record) returns (ok: bool, addr: nat)
      requires num <= packed.Length
      modifies this`num, packed
      ensures ok <==> old(num) < packed.Length
      ensures !ok ==> num == old(num) && packed[..] == old(packed[..])
      ensures ok ==> addr == old(num) && num == old(num) + 1 && packed[..num] == old(packed[..num]) + [rec]
    {
      if num >= packed.Length {
        return false, 0;
      }
      packed[num] := rec;
      num := num + 1;
      return true, num - 1;
    }

    /** The keys of the records that the cells point to. */
    method ReadBatchKeys(cells: seq<Cell>) returns (keys: seq<Key>)
      requires forall c :: c in cells ==> Addr(c) < packed.Length
      ensures |keys| == |cells|
      ensures forall i :: 0 <= i < |cells| ==> keys[i] == packed[Addr(cells[i])].key
    {
      hide Addr;
      keys := [];
      for i := 0 to |cells|
        invariant |keys| == i && forall j :: 0 <= j < i ==> keys[j] == packed[Addr(cells[j])].key
      {
        keys := keys + [packed[Addr(cells[i])].key];
      }
    }

    /** Empty slot: a new record, and a cell that points to it. */
    method PutFresh(r: nat, k: Key, v: Value) returns (out: Outcome)
      requires Valid() && r < |rows| && !Used(rows[r][SlotOf(hash, seeds[r], k)])
      modifies this`num, this`rows, packed
      ensures out.Fresh? || out.Halt?
      ensures out.Halt? <==> old(num) == packed.Length
      ensures out.Halt? ==> Valid() && rows == old(rows) && num == old(num) && packed[..num] == old(packed[..num])
      ensures out.Fresh? ==> Valid() && |rows| == |old(rows)| && Reads(r, k, v, fingerprint(k)) && OthersKept(k)
      ensures out.Fresh? ==> packed[..num] == old(packed[..num]) + [Record(k, 8, v)]
      ensures out.Fresh? ==>
        rows == old(rows)[r := old(rows)[r][SlotOf(hash, seeds[r], k) := Combine(fingerprint(k), 64, old(num))]]
      ensures AsSpecified(r, 0, k, v, out)
    {
      ghost var recs, rows0 := packed[..num], rows;
      var ok, addr := BulkLoad(Record(k, 8, v));
      if !ok {
        return Halt;
      }
      var c := Combine(fingerprint(k), 64, addr);
      FieldsOfCombine(fingerprint(k), 64, addr);
      CellsPointBelow(hash, seeds, rows, recs);
      AppendKeeps(hash, seeds, rows, recs, Record(k, 8, v));
      FillSlotKeeps(hash, seeds, rows, packed[..num], r, k, c);
      hide Length, Addr, Finger, Combine, NodeInv, Readable;
      rows := rows[r := rows[r][SlotOf(hash, seeds[r], k) := c]];
      return Fresh;
    }

    /** The cell already belongs to this key: its record is overwritten in place. */
    method PutOverwrite(r: nat, k: Key, v: Value)
      requires Valid() && r < |rows| && Used(rows[r][SlotOf(hash, seeds[r], k)])
      requires var c := rows[r][SlotOf(hash, seeds[r], k)];
        Finger(c) == fingerprint(k) && Addr(c) < num && packed[Addr(c)].key == k
      modifies packed
      ensures Valid() && Reads(r, k, v, fingerprint(k)) && OthersKept(k)
      ensures packed[..num] == old(packed[..num])[Addr(rows[r][SlotOf(hash, seeds[r], k)]) := Record(k, 64, v)]
      ensures AsSpecified(r, 0, k, v, Overwritten)
    {
      hide Length, Addr, Finger, NodeInv, Readable;
      ghost var recs := packed[..num];
      var addr := Addr(rows[r][SlotOf(hash, seeds[r], k)]);
      OverwriteKeeps(hash, seeds, rows, recs, r, k, Record(k, 64, v));
      packed[addr] := Record(k, 64, v);
      assert packed[..num] == recs[addr := Record(k, 64, v)];
    }

    /** The used cells of a row and the keys of their records. */
    method ReadRow(r: nat) returns (cells: seq<Cell>, keys: seq<Key>)
      requires Valid() && r < |rows|
      ensures |keys| == |cells| && cells == UsedCells(rows[r]) && keys == KeysOf(cells, packed[..num])
      ensures forall c :: c in cells <==> c in rows[r] && Used(c)
      ensures forall i :: 0 <= i < |cells| ==> Addr(cells[i]) < num && keys[i] == packed[..num][Addr(cells[i])].key
    {
      hide Length, Addr, Finger;
      cells := ReadBucketAddrs(rows[r]);
      hide UsedCells;
      CellsPointBelow(hash, seeds, rows, packed[..num]);
      hide NodeInv;
      forall c | c in cells ensures Addr(c) < num {
        var t :| 0 <= t < 4 && rows[r][t] == c;
      }
      keys := ReadBatchKeys(cells);
      forall i | 0 <= i < |cells| ensures Addr(cells[i]) < num && keys[i] == packed[..num][Addr(cells[i])].key {
        assert cells[i] in cells;
      }
    }

    /** The slot is taken but the row has room: every key of the row, and the new one, under a new seed. */
    method PutReseed(r: nat, k: Key, v: Value) returns (out: Outcome)
      requires Valid() && r < |rows|
      modifies this`num, this`rows, this`seeds, packed
      ensures out.Halt? || (out.Reseeded? && out.seed < 255)
      ensures out.Reseeded? ==> Valid() && |rows| == |old(rows)| && seeds == old(seeds)[r := out.seed]
      ensures out.Reseeded? ==> Reads(r, k, v, fingerprint(k)) && OthersKept(k)
      ensures out.Reseeded? ==> var keys := old(KeysOf(UsedCells(rows[r]), packed[..num])) + [k];
        SeparatesKeys(hash, out.seed, keys) && forall t :: 0 <= t < out.seed ==> !SeparatesKeys(hash, t, keys)
      ensures out.Halt? <==> old(num) == packed.Length || !old(CanReseed(r, k))
      ensures out.Halt? ==> Valid() && AllKept() && rows == old(rows) && seeds == old(seeds)
      ensures out.Halt? && old(num) == packed.Length ==> num == old(num)
      ensures packed[..num] ==
        if old(num) == packed.Length then old(packed[..num]) else old(packed[..num]) + [Record(k, 8, v)]
      ensures out.Reseeded? ==> var cells := old(UsedCells(rows[r]));
        rows == old(rows)[r := Written(hash, out.seed, KeysOf(cells, old(packed[..num])) + [k],
                                       cells + [Combine(fingerprint(k), 64, old(num))], |cells| + 1)]
    {
      hide Length, Addr, Finger, Combine, NodeInv, Readable, Rearranged, SeparatesKeys, KeysSeparable, UsedCells,
          KeysOf;
      ghost var recs := packed[..num];
      CellsPointBelow(hash, seeds, rows, recs);
      var cells, keys := ReadRow(r);
      var ok, addr := BulkLoad(Record(k, 8, v));
      if !ok {
        return Halt;
      }
      var c := Combine(fingerprint(k), 64, addr);
      FieldsOfCombine(fingerprint(k), 64, addr);
      var seed := SearchSeed(hash, keys + [k]);
      AppendKeeps(hash, seeds, rows, recs, Record(k, 8, v));
      if seed < 0 {
        return Halt;
      }
      var row := RewriteRow(hash, seed, keys + [k], cells + [c]);
      RewrittenIsRearranged(hash, seed, rows[r], row, packed[..num], cells, keys, k, c);
      ReseedKeeps(hash, seeds, rows, packed[..num], r, k, c, seed, row);
      seeds, rows := seeds[r := seed], rows[r := row];
      return Reseeded(seed);
    }

    /** Nothing in the row takes the key: only the overflow cache and an unreferenced record get it. */
    method PutSpill(k: Key, v: Value, clash: bool) returns (out: Outcome)
      requires Valid()
      modifies this`num, this`overflow, packed
      ensures Valid() && AllKept() && overflow == old(overflow) + [(k, v)]
      ensures out == if old(num) == packed.Length then Halt else Spilled(clash)
      ensures packed[..num] == if out.Halt? then old(packed[..num]) else old(packed[..num]) + [Record(k, 8, v)]
    {
      ghost var recs := packed[..num];
      overflow := overflow + [(k, v)];
      var ok, addr := BulkLoad(Record(k, 8, v));
      AppendKeeps(hash, seeds, rows, recs, Record(k, 8, v));
      return if ok then Spilled(clash) else Halt;
    }

    method MarkCached(r: nat, s: SlotIndex)
      requires Valid() && r < |rows|
      modifies this`rows
      ensures Valid() && |rows| == |old(rows)| && AllKept()
      ensures rows == old(rows)[r := old(rows)[r][s := SetCacheBit(old(rows)[r][s])]]
    {
      MarkKeeps(hash, seeds, rows, packed[..num], r, s);
      hide Length, Addr, Finger, SetCacheBit, NodeInv, Readable;
      rows := rows[r := rows[r][s := SetCacheBit(rows[r][s])]];
    }

    /** The re-seeding branch as a function of the node. */
    method PutRearrange(r: nat, k: Key, v: Value) returns (out: Outcome)
      requires Valid() && r < |rows| && BranchFor(r, k).Rearrange?
      modifies this`num, this`rows, this`seeds, packed
      ensures out.Halt? || (out.Reseeded? && out.seed < 255)
      ensures out.Reseeded? ==> Valid() && |rows| == |old(rows)| && seeds == old(seeds)[r := out.seed]
      ensures out.Reseeded? ==> Reads(r, k, v, fingerprint(k)) && OthersKept(k)
      ensures out.Halt? <==> old(num) == packed.Length || !old(CanReseed(r, k))
      ensures out.Halt? ==> Valid() && AllKept() && rows == old(rows) && seeds == old(seeds)
      ensures out.Halt? && old(num) == packed.Length ==> num == old(num)
      ensures packed[..num] ==
        if old(num) == packed.Length then old(packed[..num]) else old(packed[..num]) + [Record(k, 8, v)]
      ensures AsSpecified(r, 0, k, v, out)
    {
      hide Length, Addr, Finger, Combine, NodeInv, BranchOf, Readable, SeparatesKeys, KeysSeparable, UsedCells,
          KeysOf, Written;
      ghost var keys := KeysOf(UsedCells(rows[r]), packed[..num]) + [k];
      out := PutReseed(r, k, v);
      if out.Reseeded? { FirstSeedIs(hash, keys, 0, out.seed); }
    }

    /** The cell of another key with the same fingerprint. */
    method PutClash(r: nat, k: Key, v: Value) returns (out: Outcome)
      requires Valid() && r < |rows| && BranchFor(r, k).Clash?
      modifies this`num, this`overflow, packed
      ensures Valid() && AllKept() && overflow == old(overflow) + [(k, v)]
      ensures out == if old(num) == packed.Length then Halt else Spilled(true)
      ensures out.Halt? ==> num == old(num) && packed[..num] == old(packed[..num])
      ensures AsSpecified(r, 0, k, v, out)
    {
      hide Length, Addr, Finger, NodeInv, BranchOf, Readable;
      out := PutSpill(k, v, true);
    }

    /** A full row: the cell that the client asked for is marked as having keys in the overflow cache. */
    method PutNoRoom(r: nat, s: SlotIndex, k: Key, v: Value) returns (out: Outcome)
      requires Valid() && r < |rows| && BranchFor(r, k).NoRoom?
      modifies this`num, this`rows, this`overflow, packed
      ensures Valid() && |rows| == |old(rows)| && AllKept() && overflow == old(overflow) + [(k, v)]
      ensures out == if old(num) == packed.Length then Halt else Spilled(false)
      ensures out.Halt? ==> rows == old(rows) && num == old(num) && packed[..num] == old(packed[..num])
      ensures AsSpecified(r, s, k, v, out)
    {
      hide Length, Addr, Finger, SetCacheBit, NodeInv, BranchOf, Readable;
      out := PutSpill(k, v, false);
      if out.Spilled? {
        MarkCached(r, s);
      }
    }

    /** The PUT handler for location `loc`. The slot is recomputed from the row's current seed. */
    method Put(loc: nat, k: Key, v: Value) returns (out: Outcome)
      requires Valid() && loc / 4 < |rows|
      modifies this`num, this`rows, this`seeds, this`overflow, packed
      ensures Valid() && |rows| == |old(rows)|
      ensures seeds == if out.Reseeded? then old(seeds)[loc / 4 := out.seed] else old(seeds)
      ensures out.Reseeded? ==> out.seed < 255
      ensures out.Stored() ==> Reads(loc / 4, k, v, fingerprint(k)) && OthersKept(k)
      ensures out.Spilled? ==> AllKept() && overflow == old(overflow) + [(k, v)]
      ensures out.Halt? <==> old(MustHalt(loc / 4, k))
      ensures out.Halt? ==> AllKept() && rows == old(rows) && MustHalt(loc / 4, k)
      ensures out.Overwritten? <==> old(BranchFor(loc / 4, k)).SameKey?
      ensures out.Fresh? <==> old(BranchFor(loc / 4, k)).EmptySlot? && !old(MustHalt(loc / 4, k))
      ensures out.Reseeded? <==> old(BranchFor(loc / 4, k)).Rearrange? && !old(MustHalt(loc / 4, k))
      ensures out == Spilled(true) <==> old(BranchFor(loc / 4, k)).Clash? && !old(MustHalt(loc / 4, k))
      ensures out == Spilled(false) <==> old(BranchFor(loc / 4, k)).NoRoom? && !old(MustHalt(loc / 4, k))
      ensures AsSpecified(loc / 4, loc % 4, k, v, out)
      ensures OutcomeOnCells(hash, old(Snapshot()), packed.Length, loc / 4, k, fingerprint(k), out)
      ensures NodeOnCells(hash, old(Snapshot()), packed.Length, loc / 4, loc % 4, k, v, fingerprint(k), out, Snapshot())
    {
      hide OutcomeAt, NodeAt, OutcomeOnCells, NodeOnCells, Length, Addr, Finger, NodeInv, UsedCells, KeysOf,
          KeysSeparable;
      var r := loc / 4;
      ghost var before := Snapshot();
      NodeIsOnCells(hash, before, packed.Length, r, loc % 4, k, v, fingerprint(k));
      OutcomeIsOnCells(hash, before, packed.Length, r, k, fingerprint(k));
      var slot := SlotOf(hash, seeds[r], k);
      var cell := rows[r][slot];
      var status := CheckSlots(rows[r], slot, fingerprint(k));
      match status
      case 0 =>
        out := PutFresh(r, k, v);
        SlotMatters(hash, before, packed.Length, r, 0, loc % 4, k, v, fingerprint(k));
      case 1 =>
        InPlace(r, k);
        if packed[Addr(cell)].key == k {
          PutOverwrite(r, k, v);
          out := Overwritten;
        } else {
          out := PutClash(r, k, v);
        }
        SlotMatters(hash, before, packed.Length, r, 0, loc % 4, k, v, fingerprint(k));
      case 2 =>
        CellsPointBelow(hash, seeds, rows, packed[..num]);
        out := PutRearrange(r, k, v);
        if out.Halt? { StillHalts(r, k, old(packed[..num])); }
        SlotMatters(hash, before, packed.Length, r, 0, loc % 4, k, v, fingerprint(k));
      case _ =>
        out := PutNoRoom(r, loc % 4, k, v);
    }

    /** A halted re-seeding would halt again: a further record changes nothing for the row. */
    lemma StillHalts(r: nat, k: Key, recs: seq<Record>)
      requires num <= packed.Length && r < |rows| == |seeds|
      requires packed[..num] == recs || exists rec :: packed[..num] == recs + [rec]
      requires PointBelow(rows, |recs|)
      ensures BranchFor(r, k) == BranchOf(hash, seeds[r], rows[r], recs, k, fingerprint(k))
      ensures CanReseed(r, k) <==> KeysSeparable(hash, KeysOf(UsedCells(rows[r]), recs) + [k])
    {
      hide Length, Addr, Finger, UsedCells, KeysOf, KeysSeparable, BranchOf;
      if packed[..num] != recs {
        var rec :| packed[..num] == recs + [rec];
        SameBranch(hash, seeds[r], rows[r], recs, rec, k, fingerprint(k));
      }
    }

    /** A used cell points into the loaded part of the array. */
    lemma InPlace(r: nat, k: Key)
      requires Valid() && r < |rows| && Used(rows[r][SlotOf(hash, seeds[r], k)])
      ensures Addr(rows[r][SlotOf(hash, seeds[r], k)]) < num
    {
      hide Length, Addr, Finger;
      CellsPointBelow(hash, seeds, rows, packed[..num]);
    }

    /** The data of the record that the cell points to, whatever key it has. */
    method Get(r: nat, s: SlotIndex) returns (v: Value)
      requires num <= packed.Length && r < |rows| && Addr(rows[r][s]) < packed.Length
      ensures v == packed[Addr(rows[r][s])].data
    {
      v := packed[Addr(rows[r][s])].data;
    }
  }
}
