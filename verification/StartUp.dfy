/** Starting a memory node: every key is loaded into the packed array and inserted in the control plane with its index,
    and the compiled table becomes the node's rows and the client's and the node's seeds. */
module StartUp {
  import opened Hashing
  import opened LudoTable
  import opened LudoSearch
  import opened LudoSlots
  import opened LudoControlPlane
  import opened LudoDataPlane
  import opened MemoryNode
  import opened RemoteClient

  /** The index under which each of the first `n` keys was loaded last. */
  function LoadedAt(keys: seq<Key>, n: nat): (m: map<Key, Value>)
    requires n <= |keys| < TWO_64
  {
    if n == 0 then map[] else LoadedAt(keys, n - 1)[keys[n - 1] := n - 1]
  }

  lemma {:induction false} LoadedKeys(keys: seq<Key>, n: nat)
    requires n <= |keys| < TWO_64
    ensures forall k :: k in LoadedAt(keys, n) <==> exists i :: 0 <= i < n && keys[i] == k
    ensures forall k :: k in LoadedAt(keys, n) ==> LoadedAt(keys, n)[k] < n && keys[LoadedAt(keys, n)[k]] == k
  {
    if n > 0 {
      LoadedKeys(keys, n - 1);
      var m := LoadedAt(keys, n);
      forall k ensures k in m <==> exists i :: 0 <= i < n && keys[i] == k {
        assert k == keys[n - 1] || (k in m <==> k in LoadedAt(keys, n - 1));
      }
    }
  }

  /** Record `i` holds key `i`, with `i` as its data. */
  ghost predicate RecordsOf(recs: seq<Record>, keys: seq<Key>) {
    |recs| <= |keys| && forall i :: 0 <= i < |recs| ==> recs[i].key == keys[i] && recs[i].data == i
  }

  /** A compiled table of record indices: a used cell belongs to a key, and points at a record of that key. */
  lemma UsedCellHasOwner(h: Hash, bs: Buckets, loc: Locator, stray: Stray, at: Places, seeds: seq<nat>, rows: seq<Row>,
      recs: seq<Record>, r: nat, t: nat) returns (k: Key)
    requires Indexed(bs, at) && Agrees(h, bs, loc, stray, at, seeds, rows)
    requires PointsAtRecords(Contents(bs, at), recs) && |recs| <= TWO_40
    requires r < |rows| && t < 4 && Used(rows[r][t])
    ensures k in at && LookupSlot(h, seeds, loc, stray, k) == Pos(r, t)
    ensures Addr(rows[r][t]) == Contents(bs, at)[k] < |recs| && recs[Addr(rows[r][t])].key == k
  {
    assert rows[r][t] != 0;
    hide Length, Addr, Finger, BulkCell;
    assert OwnedCell(h, loc, stray, at, seeds, rows, r, t);
    k :| k in at && LookupSlot(h, seeds, loc, stray, k) == Pos(r, t);
    assert CellOf(h, bs, loc, stray, at, seeds, rows, k);
    BulkCellDecodes(Contents(bs, at)[k]);
  }

  ghost predicate PointsAtRecords(m: map<Key, Value>, recs: seq<Record>) {
    forall k :: k in m ==> m[k] < |recs| && recs[m[k]].key == k
  }

  /** The compiled table is a valid node: each cell in place, no two cells sharing a record. */
  lemma CompiledNode(h: Hash, bs: Buckets, loc: Locator, stray: Stray, at: Places, seeds: seq<nat>, rows: seq<Row>,
      recs: seq<Record>)
    requires Indexed(bs, at) && Agrees(h, bs, loc, stray, at, seeds, rows)
    requires PointsAtRecords(Contents(bs, at), recs) && |recs| <= TWO_40
    ensures NodeInv(h, seeds, rows, recs)
  {
    hide Length, Addr, Finger, BulkCell, Indexed, PointsAtRecords, OwnedCell, CellOf;
    forall r | 0 <= r < |rows| ensures RowInPlace(h, seeds[r], rows[r], recs) {
      forall t: nat ensures CellInPlace(h, seeds[r], rows[r], recs, t) {
        if t < 4 && Used(rows[r][t]) {
          var k := UsedCellHasOwner(h, bs, loc, stray, at, seeds, rows, recs, r, t);
        }
      }
    }
    forall r: nat, t: nat, r': nat, t': nat ensures Apart(rows, r, t, r', t') {
      if r < |rows| && r' < |rows| && t < 4 && t' < 4 && (r != r' || t != t') && Used(rows[r][t]) &&
          Used(rows[r'][t']) {
        var j := UsedCellHasOwner(h, bs, loc, stray, at, seeds, rows, recs, r, t);
        var k := UsedCellHasOwner(h, bs, loc, stray, at, seeds, rows, recs, r', t');
      }
    }
  }

  /** Every key of the table is readable at its location, from a cell with tag 0. */
  lemma CompiledReads(h: Hash, bs: Buckets, loc: Locator, stray: Stray, at: Places, seeds: seq<nat>, rows: seq<Row>,
      recs: seq<Record>, k: Key)
    requires Indexed(bs, at) && Agrees(h, bs, loc, stray, at, seeds, rows)
    requires PointsAtRecords(Contents(bs, at), recs) && |recs| <= TWO_40 && k in at
    ensures var v := Contents(bs, at)[k];
      v < |recs| && Readable(h, seeds, rows, recs, LookupSlot(h, seeds, loc, stray, k).bucket, k, recs[v].data, 0)
  {
    hide Length, Addr, Finger, BulkCell;
    assert CellOf(h, bs, loc, stray, at, seeds, rows, k);
    BulkCellDecodes(Contents(bs, at)[k]);
  }

  /** The insertions of the first `n` keys with their indices. */
  function Insertions(keys: seq<Key>, n: nat): (ops: seq<Operation>)
    requires n <= |keys| < TWO_64
    ensures |ops| == n && forall i :: 0 <= i < n ==> ops[i] == Insert(keys[i], i)
  {
    if n == 0 then [] else Insertions(keys, n - 1) + [Insert(keys[n - 1], n - 1)]
  }

  lemma {:induction false} InsertionsLoad(keys: seq<Key>, n: nat, all: nat)
    requires n <= all <= |keys| < TWO_64
    ensures ApplyAll(map[], Insertions(keys, all)[..n]) == LoadedAt(keys, n)
  {
    var ops := Insertions(keys, all)[..n];
    if n > 0 {
      assert ops[..n - 1] == Insertions(keys, all)[..n - 1];
      InsertionsLoad(keys, n - 1, all);
    }
  }

  /** Loads the keys into the packed array, each with its index as data. */
  method LoadRecords(server: Server, keys: seq<Key>)
    requires server.Valid() && server.num == 0 && |keys| <= server.packed.Length
    requires server.rows == [] && server.seeds == []
    modifies server`num, server.packed
    ensures server.num == |keys| <= server.packed.Length <= TWO_32 && RecordsOf(server.packed[..server.num], keys)
  {
    for i := 0 to |keys|
      invariant server.num == i <= server.packed.Length <= TWO_32 && RecordsOf(server.packed[..i], keys)
    {
      var ok, addr := server.BulkLoad(Record(keys[i], 8, i));
    }
  }

  /** What a client may rely on after start-up: every loaded key is read at its location, from a cell with tag 0. */
  ghost predicate Loaded(dp: DataPlane, server: Server, keys: seq<Key>)
    requires InStep(dp, server) && |keys| < TWO_64
    reads dp, server, server.packed
  {
    forall k :: k in LoadedAt(keys, |keys|) ==> server.Reads(RowOf(dp, k), k, LoadedAt(keys, |keys|)[k], 0)
  }

  /** `setup_ludo_table`: client and node start in step, with every loaded key in place, unless a key cannot be placed
      in the table `bs`, `loc`, `at` of the keys before it. */
  method SetUp(hash: Hash, room: Capacity, fingerprint: Key -> Fingerprint, keys: seq<Key>, stray: Stray)
    returns (done: nat, why: Status, dp: DataPlane?, server: Server, ghost bs: Buckets, ghost loc: Locator,
        ghost at: Places)
    requires Suitable(room) && 2 * |keys| <= TWO_32
    ensures done <= |keys| && server.fingerprint == fingerprint
    ensures done == |keys| ==> dp != null && InStep(dp, server) && Loaded(dp, server, keys)
    ensures done == |keys| ==> server.packed.Length == 2 * |keys| && server.num == |keys|
    ensures done < |keys| ==> Stuck(hash, room, bs, loc, at, keys[done], why)
    ensures done < |keys| ==> Contents(bs, at) == LoadedAt(keys, done)
  {
    hide TableInv, NothingInReach, Placeable, Stuck, NodeInv, Agrees, ApplyAll, LoadedAt;
    dp := null;
    server := new Server(hash, fingerprint, 2 * |keys|);
    LoadRecords(server, keys);
    var cp := new ControlPlane(hash, room, 1024);
    done, why, bs, loc, at := cp.Run(Insertions(keys, |keys|));
    InsertionsLoad(keys, done, |keys|);
    if done == |keys| {
      assert Insertions(keys, |keys|)[..done] == Insertions(keys, |keys|);
      dp := Install(server, cp, keys, stray);
    } else {
      StuckShape(hash, room, bs, loc, at, keys[done], why);
    }
  }

  /** The compiled table becomes the node's rows, and its seeds those of both sides. */
  method Install(server: Server, cp: ControlPlane, keys: seq<Key>, stray: Stray) returns (dp: DataPlane)
    requires cp.Valid() && cp.hash == server.hash && |keys| <= TWO_32 && cp.Map() == LoadedAt(keys, |keys|)
    requires server.num == |keys| <= server.packed.Length <= TWO_32 && RecordsOf(server.packed[..server.num], keys)
    modifies server`seeds, server`rows
    ensures fresh(dp) && InStep(dp, server) && Loaded(dp, server, keys)
  {
    hide TableInv, NodeInv, Agrees, LoadedAt, Readable;
    var rows;
    dp, rows := Compile(cp, stray);
    server.seeds, server.rows := dp.seeds, rows;
    InPlaceAtStart(cp.hash, cp.buckets, cp.locator, stray, cp.at, dp.seeds, rows, server.packed[..server.num], keys);
  }

  /** The compiled table with the loaded records is a valid node that serves every key. */
  lemma InPlaceAtStart(h: Hash, bs: Buckets, loc: Locator, stray: Stray, at: Places, seeds: seq<nat>, rows: seq<Row>,
      recs: seq<Record>, keys: seq<Key>)
    requires TableInv(h, bs, loc, at) && Agrees(h, bs, loc, stray, at, seeds, rows)
    requires RecordsOf(recs, keys) && |recs| == |keys| <= TWO_32 && Contents(bs, at) == LoadedAt(keys, |keys|)
    ensures |seeds| == |rows| > 0 && NodeInv(h, seeds, rows, recs)
    ensures forall k :: k in LoadedAt(keys, |keys|) ==>
      Readable(h, seeds, rows, recs, LookupSlot(h, seeds, loc, stray, k).bucket, k, LoadedAt(keys, |keys|)[k], 0)
  {
    hide Located, SeedsGood, NodeInv, Readable;
    LoadedKeys(keys, |keys|);
    assert PointsAtRecords(Contents(bs, at), recs);
    CompiledNode(h, bs, loc, stray, at, seeds, rows, recs);
    forall k | k in LoadedAt(keys, |keys|)
      ensures Readable(h, seeds, rows, recs, LookupSlot(h, seeds, loc, stray, k).bucket, k, LoadedAt(keys, |keys|)[k],
                0)
    {
      CompiledReads(h, bs, loc, stray, at, seeds, rows, recs, k);
    }
  }

  /** The first PUT of a loaded key. Its cell carries tag 0: a key whose fingerprint is 0 is overwritten; for any other
      the PUT is spilled, exactly if the row is full and the array is not, or it halts the server. */
  method PutLoaded(dp: DataPlane, server: Server, keys: seq<Key>, k: Key, v: Value) returns (out: Outcome)
    requires |keys| < TWO_64 && InStep(dp, server) && Loaded(dp, server, keys) && k in keys
    modifies dp`seeds, server`num, server`rows, server`seeds, server`overflow, server.packed
    ensures server.fingerprint(k) == 0 ==> out.Overwritten?
    ensures server.fingerprint(k) != 0 ==>
      if old(RowFull(server.rows[RowOf(dp, k)])) && old(server.num) < server.packed.Length then out == Spilled(false)
          else out.Halt?
  {
    hide Length, Addr, Finger, NodeInv, KeysSeparable, UsedCells, KeysOf, Readable;
    LoadedKeys(keys, |keys|);
    var i :| 0 <= i < |keys| && keys[i] == k;
    ghost var w := LoadedAt(keys, |keys|)[k];
    assert server.Reads(RowOf(dp, k), k, w, 0);
    if server.fingerprint(k) == 0 {
      ReadableIsSameKey(server, RowOf(dp, k), k, w);
    } else {
      ForeignTag(server.hash, server.seeds, server.rows, server.packed[..server.num], RowOf(dp, k), k, w, 0,
          server.fingerprint(k));
    }
    out := RemotePut(dp, server, k, v);
  }
}
