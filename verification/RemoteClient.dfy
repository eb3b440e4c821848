/** The client of a memory node: it keeps its own copy of the seeds, sends requests to computed locations
    and takes new seeds from PUT replies. */
module RemoteClient {
  import opened Hashing
  import opened LudoTable
  import opened LudoSlots
  import opened LudoDataPlane
  import opened MemoryNode

  /** Bit 8 of a PUT reply says that the low byte is the row's new seed. */
  predicate CarriesSeed(reply: nat) {
    (reply / 256) % 2 == 1
  }

  lemma OnlyReseedingRepliesCarrySeeds(out: Outcome)
    requires out.Reseeded? ==> out.seed < 255
    ensures CarriesSeed(out.ReplyValue()) <==> out.Reseeded?
    ensures out.Reseeded? ==> out.ReplyValue() % 256 == out.seed
    ensures out.ReplyValue() == (match out case Fresh => 0 case Overwritten => 1 case Reseeded(seed) => 256 + seed
      case Spilled(clash) => (if clash then 1 else 3) case Halt => 4)
  {
  }

  /** The row a client sends a key to; it does not depend on the seeds. */
  ghost function RowOf(dp: DataPlane, k: Key): nat
    requires |dp.seeds| > 0
    reads dp
  {
    LookupSlot(dp.hash, dp.seeds, dp.locator, dp.stray, k).bucket
  }

  /** Client and server agree on every seed. */
  ghost predicate InStep(dp: DataPlane, server: Server)
    reads dp, server, server.packed
  {
    server.Valid() && dp.hash == server.hash && dp.seeds == server.seeds && |dp.seeds| > 0
  }

  // ----- PUTs as a function of the node -----

  /** What never changes: how keys are hashed, located and tagged, and the size of the packed array. */
  datatype Setting = Setting(hash: Hash, locator: Locator, stray: Stray, fingerprint: Key -> Fingerprint, capacity: nat)

  ghost function SettingOf(dp: DataPlane, server: Server): (w: Setting)
    reads dp`locator
  {
    Setting(server.hash, dp.locator, dp.stray, server.fingerprint, server.packed.Length)
  }

  ghost predicate Serving(n: Node) {
    |n.rows| == |n.seeds| > 0
  }

  /** The outcome of a PUT by a client whose seeds are those of the node. */
  ghost function PutOutcome(w: Setting, n: Node, k: Key): (out: Outcome)
    requires Serving(n)
  {
    var p := LookupSlot(w.hash, n.seeds, w.locator, w.stray, k);
    OutcomeAt(w.hash, n, w.capacity, p.bucket, k, w.fingerprint(k))
  }

  ghost function PutNode(w: Setting, n: Node, k: Key, v: Value): (m: Node)
    requires Serving(n)
    ensures Serving(m)
  {
    hide BranchOf, OutcomeAt, Addr, Combine, SetCacheBit, Written;
    var p := LookupSlot(w.hash, n.seeds, w.locator, w.stray, k);
    NodeAt(w.hash, n, w.capacity, p.bucket, p.slot, k, v, w.fingerprint(k))
  }

  /** The node after the first `i` PUTs. */
  ghost function NodeAfter(w: Setting, n: Node, puts: seq<(Key, Value)>, i: nat): (m: Node)
    requires Serving(n) && i <= |puts|
    ensures Serving(m)
  {
    if i == 0 then n else PutNode(w, NodeAfter(w, n, puts, i - 1), puts[i - 1].0, puts[i - 1].1)
  }

  lemma NoPut(w: Setting, n: Node, puts: seq<(Key, Value)>)
    requires Serving(n)
    ensures NodeAfter(w, n, puts, 0) == n
  {
  }

  lemma OnePutMore(w: Setting, n: Node, puts: seq<(Key, Value)>, i: nat)
    requires Serving(n) && i < |puts|
    ensures NodeAfter(w, n, puts, i + 1) == PutNode(w, NodeAfter(w, n, puts, i), puts[i].0, puts[i].1)
  {
  }

  // ----- requests -----

  /** A PUT: the server decides by what its row holds; the reply keeps the client's seeds in step. */
  method RemotePut(dp: DataPlane, server: Server, k: Key, v: Value) returns (out: Outcome)
    requires InStep(dp, server)
    modifies dp`seeds, server`num, server`rows, server`seeds, server`overflow, server.packed
    ensures InStep(dp, server) && |dp.seeds| == |old(dp.seeds)|
    ensures forall j :: RowOf(dp, j) == old(RowOf(dp, j))
    ensures out.Stored() ==> server.Reads(RowOf(dp, k), k, v, server.fingerprint(k)) && server.OthersKept(k)
    ensures !out.Stored() ==> server.AllKept()
    ensures out.Halt? <==> old(server.MustHalt(RowOf(dp, k), k))
    ensures out.Halt? ==> server.MustHalt(RowOf(dp, k), k)
    ensures out.Overwritten? <==> old(server.BranchFor(RowOf(dp, k), k)).SameKey?
    ensures out == Spilled(true) <==>
      !old(server.MustHalt(RowOf(dp, k), k)) && old(server.BranchFor(RowOf(dp, k), k)).Clash?
    ensures out == Spilled(false) <==>
      !old(server.MustHalt(RowOf(dp, k), k)) && old(server.BranchFor(RowOf(dp, k), k)).NoRoom?
    ensures out == PutOutcome(SettingOf(dp, server), old(server.Snapshot()), k)
    ensures server.Snapshot() == PutNode(SettingOf(dp, server), old(server.Snapshot()), k, v)
    ensures OutcomeOnCells(server.hash, old(server.Snapshot()), server.packed.Length, RowOf(dp, k), k,
                           server.fingerprint(k), out)
  {
    hide OutcomeAt, NodeAt, OutcomeOnCells, NodeOnCells, Length, Addr, Finger, NodeInv, Server.MustHalt,
        Server.BranchFor;
    var b, s := dp.Lookup(k);
    var loc := 4 * b + s;
    assert loc / 4 == b;
    out := server.Put(loc, k, v);
    OnlyReseedingRepliesCarrySeeds(out);
    var reply := out.ReplyValue();
    if !out.Halt? && CarriesSeed(reply) {
      dp.UpdateSeed(b, reply % 256);
    }
  }

  /** A readable key is stored under its own fingerprint exactly if a PUT of it finds it. */
  lemma ReadableIsSameKey(server: Server, r: nat, k: Key, w: Value)
    requires server.Valid() && server.Reads(r, k, w, server.fingerprint(k))
    ensures server.BranchFor(r, k).SameKey?
  {
    hide Length, Addr, Finger, NodeInv;
  }

  /** A GET returns the value of a key that the server holds readable. */
  method RemoteGet(dp: DataPlane, server: Server, k: Key, ghost f: nat, ghost v: Value) returns (data: Value)
    requires InStep(dp, server) && server.Reads(RowOf(dp, k), k, v, f)
    ensures data == v
  {
    var b, s := dp.Lookup(k);
    data := server.Get(b, s);
  }

  /** The bindings a client may rely on after its first `n` PUTs: those that were not spilled. */
  function Remembered(puts: seq<(Key, Value)>, outs: seq<Outcome>, n: nat): map<Key, Value>
    requires n <= |outs| <= |puts|
  {
    if n == 0 then map[]
    else
      var m := Remembered(puts, outs, n - 1);
      if outs[n - 1].Stored() then m[puts[n - 1].0 := puts[n - 1].1] else m
  }

  /** Every binding of `m` is served by the row its key is sent to. */
  ghost predicate Serves(dp: DataPlane, server: Server, m: map<Key, Value>)
    requires InStep(dp, server)
    reads dp, server, server.packed
  {
    forall k :: k in m ==> server.Reads(RowOf(dp, k), k, m[k], server.fingerprint(k))
  }

  /** A key that has once been stored is overwritten by every later PUT, never spilled. */
  ghost predicate OnceStoredAlwaysOverwritten(puts: seq<(Key, Value)>, outs: seq<Outcome>)
    requires |outs| <= |puts|
  {
    forall i :: 0 <= i < |outs| && puts[i].0 in Remembered(puts, outs, i) ==> outs[i].Overwritten?
  }

  /** None of the first `n` PUTs is for `j`. */
  predicate NeverPut(puts: seq<(Key, Value)>, n: nat, j: Key)
    requires n <= |puts|
  {
    forall i :: 0 <= i < n ==> puts[i].0 != j
  }

  /** Any run of PUTs by one client. Every reply, and the whole state of the node at the end, are those of the handler
      as a function, applied PUT by PUT; the run ends early exactly at the first PUT that halts the server. Client and
      server stay in step, and a GET finds for every key the last value stored for it, however many other keys were
      put since. */
  method PutAll(dp: DataPlane, server: Server, puts: seq<(Key, Value)>) returns (outs: seq<Outcome>)
    requires InStep(dp, server)
    modifies dp`seeds, server`num, server`rows, server`seeds, server`overflow, server.packed
    ensures |outs| <= |puts| && InStep(dp, server) && forall i :: 0 <= i < |outs| ==> !outs[i].Halt?
    ensures |outs| < |puts| ==> server.MustHalt(RowOf(dp, puts[|outs|].0), puts[|outs|].0)
    ensures Serves(dp, server, Remembered(puts, outs, |outs|))
    ensures OnceStoredAlwaysOverwritten(puts, outs)
    ensures forall j, v, f :: NeverPut(puts, |outs|, j) && old(server.Reads(RowOf(dp, j), j, v, f)) ==>
      server.Reads(RowOf(dp, j), j, v, f)
    ensures var w, n := SettingOf(dp, server), old(server.Snapshot());
      && (forall i :: 0 <= i < |outs| ==> outs[i] == PutOutcome(w, NodeAfter(w, n, puts, i), puts[i].0))
      && (|outs| < |puts| ==> PutOutcome(w, NodeAfter(w, n, puts, |outs|), puts[|outs|].0).Halt?)
      && server.Snapshot() == NodeAfter(w, n, puts, if |outs| < |puts| then |outs| + 1 else |outs|)
  {
    hide PutOutcome, PutNode, NodeAfter, Server.MustHalt, Serves, OnceStoredAlwaysOverwritten, Remembered, NodeInv,
        Server.Reads;
    outs := [];
    ghost var w, n := SettingOf(dp, server), server.Snapshot();
    StartServing(dp, server, puts);
    assert NodeAfter(w, n, puts, 0) == n by { NoPut(w, n, puts); }
    for i := 0 to |puts|
      invariant |outs| == i && InStep(dp, server) && forall j :: 0 <= j < i ==> !outs[j].Halt?
      invariant Serves(dp, server, Remembered(puts, outs, i))
      invariant OnceStoredAlwaysOverwritten(puts, outs)
      invariant forall j :: 0 <= j < i ==> outs[j] == PutOutcome(w, NodeAfter(w, n, puts, j), puts[j].0)
      invariant server.Snapshot() == NodeAfter(w, n, puts, i)
      invariant forall j, v, f :: NeverPut(puts, i, j) && old(server.Reads(RowOf(dp, j), j, v, f)) ==>
        server.Reads(RowOf(dp, j), j, v, f)
    {
      var out := PutOne(dp, server, puts[i].0, puts[i].1, Remembered(puts, outs, i));
      OnePutMore(w, n, puts, i);
      if out.Halt? {
        return outs;
      }
      RunGrows(puts, outs, out);
      outs := outs + [out];
    }
  }

  lemma StartServing(dp: DataPlane, server: Server, puts: seq<(Key, Value)>)
    requires InStep(dp, server)
    ensures Serves(dp, server, Remembered(puts, [], 0)) && OnceStoredAlwaysOverwritten(puts, [])
  {
  }

  method PutOne(dp: DataPlane, server: Server, k: Key, v: Value, ghost m: map<Key, Value>) returns (out: Outcome)
    requires InStep(dp, server) && Serves(dp, server, m)
    modifies dp`seeds, server`num, server`rows, server`seeds, server`overflow, server.packed
    ensures InStep(dp, server)
    ensures out.Halt? <==> old(server.MustHalt(RowOf(dp, k), k))
    ensures out.Halt? ==> server.MustHalt(RowOf(dp, k), k) && Serves(dp, server, m)
    ensures !out.Halt? ==> Serves(dp, server, if out.Stored() then m[k := v] else m)
    ensures k in m ==> out.Overwritten?
    ensures forall j, v, f :: (j != k || out.Halt?) && old(server.Reads(RowOf(dp, j), j, v, f)) ==>
      server.Reads(RowOf(dp, j), j, v, f)
    ensures out == PutOutcome(SettingOf(dp, server), old(server.Snapshot()), k)
    ensures server.Snapshot() == PutNode(SettingOf(dp, server), old(server.Snapshot()), k, v)
  {
    hide PutOutcome, PutNode, Server.MustHalt, NodeInv, Server.BranchFor, Server.Reads, Length, Addr, Finger;
    if k in m { ReadableIsSameKey(server, RowOf(dp, k), k, m[k]); }
    out := RemotePut(dp, server, k, v);
    forall j | j in m && (j != k || !out.Stored())
      ensures server.Reads(RowOf(dp, j), j, m[j], server.fingerprint(j))
    {
      assert old(server.Reads(RowOf(dp, j), j, m[j], server.fingerprint(j)));
    }
  }

  lemma {:induction false} RememberedFrame(puts: seq<(Key, Value)>, outs: seq<Outcome>, out: Outcome, n: nat)
    requires n <= |outs| < |puts|
    ensures Remembered(puts, outs + [out], n) == Remembered(puts, outs, n)
  {
    if n > 0 { RememberedFrame(puts, outs, out, n - 1); }
  }

  lemma RunGrows(puts: seq<(Key, Value)>, outs: seq<Outcome>, out: Outcome)
    requires |outs| < |puts| && OnceStoredAlwaysOverwritten(puts, outs)
    requires puts[|outs|].0 in Remembered(puts, outs, |outs|) ==> out.Overwritten?
    ensures OnceStoredAlwaysOverwritten(puts, outs + [out])
    ensures Remembered(puts, outs + [out], |outs| + 1) ==
      var m := Remembered(puts, outs, |outs|); if out.Stored() then m[puts[|outs|].0 := puts[|outs|].1] else m
  {
    RememberedFrame(puts, outs, out, |outs|);
    forall i | 0 <= i < |outs| + 1 && puts[i].0 in Remembered(puts, outs + [out], i)
      ensures (outs + [out])[i].Overwritten?
    {
      RememberedFrame(puts, outs, out, i);
    }
  }
}
