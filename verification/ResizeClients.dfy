/** What one allocation gives its client, and what no later step takes away again. */
module ResizeClients {
  import opened Hashing
  import opened ResizeMachine
  import opened ResizeSafety
  import opened ResizeLanes

  // ----- the three steps of an allocation -----

  /** The client holds an index of the epoch it picked, whose slot still has the record of that epoch. */
  predicate MayCheck(s: State, c: nat, v: nat, x: nat) {
    && s.epochSlots > 0 && |s.reg.epochs| == s.epochSlots
    && c in s.alc.clients && s.alc.clients[c] == Fetched(v, x) && s.reg.epochs[v % s.epochSlots].version == v
  }

  /** A resting client picks the current epoch; nothing else changes. */
  lemma PickTakesCurrent(s: State, c: nat)
    requires Shaped(s) && c in s.alc.clients && s.alc.clients[c] == Resting
    ensures Step(s, Pick(c)) == s.(alc := s.alc.(clients := s.alc.clients[c := Picked(s.reg.current)]))
  {
  }

  /** The client gets the next index of the lane its number selects, and the lane moves on by the number of lanes. */
  lemma FetchTakesFromLane(s: State, c: nat, v: nat)
    requires Shaped(s) && c in s.alc.clients && s.alc.clients[c] == Picked(v)
    ensures var n := |s.reg.lanes|;
      var x := s.reg.lanes[c % n];
      Step(s, FetchAdd(c)) == s.(reg := s.reg.(lanes := s.reg.lanes[c % n := x + n]),
                                 alc := s.alc.(clients := s.alc.clients[c := Fetched(v, x)]))
  {
    MaskedIsRemainder(c, |s.reg.lanes|);
  }

  /** A fetched index is granted exactly if it is below the capacity of the epoch the client picked; either way the
      client is done and nothing else changes. */
  lemma CheckGrants(s: State, c: nat, v: nat, x: nat)
    requires LaneInv(s) && MayCheck(s, c, v, x)
    ensures v in s.alc.bounds
    ensures Step(s, CheckBound(c)) == s.(alc := s.alc.(
        clients := s.alc.clients[c := Resting],
        grants := if x < s.alc.bounds[v] then s.alc.grants + [Grant(x, v)] else s.alc.grants))
  {
    MaskedIsRemainder(v, s.epochSlots);
    assert RecordFits(s, v % s.epochSlots) && ClientFits(s, c);
  }

  /** The steps that add a grant are the bound checks of indices below the bound, and each adds that one grant. */
  lemma GrantsChangeExactly(s: State, a: Action)
    requires LaneInv(s)
    ensures Step(s, a).alc.grants != s.alc.grants <==>
      && a.CheckBound? && a.client in s.alc.clients && s.alc.clients[a.client].Fetched?
      && var v, x := s.alc.clients[a.client].version, s.alc.clients[a.client].index;
         MayCheck(s, a.client, v, x) && v in s.alc.bounds && x < s.alc.bounds[v]
    ensures s.alc.grants <= Step(s, a).alc.grants
  {
    if a.CheckBound? {
      var c := a.client;
      if c in s.alc.clients && s.alc.clients[c].Fetched? {
        var v, x := s.alc.clients[c].version, s.alc.clients[c].index;
        MaskedIsRemainder(v, s.epochSlots);
        if MayCheck(s, c, v, x) { CheckGrants(s, c, v, x); }
        hide LaneInv;
        assert |s.alc.grants + [Grant(x, v)]| != |s.alc.grants|;
      }
    } else {
      OthersGrantNothing(s, a);
      hide Step;
    }
  }

  lemma OthersGrantNothing(s: State, a: Action)
    requires Shaped(s) && !a.CheckBound?
    ensures Step(s, a).alc.grants == s.alc.grants
  {
  }

  // ----- over whole runs -----

  /** A capacity, once a client may know it, and a grant are never taken back. */
  lemma StepRemembers(s: State, a: Action)
    requires SafetyInv(s) && LaneInv(s)
    ensures s.alc.grants <= Step(s, a).alc.grants
    ensures forall v :: v in s.alc.bounds ==> v in Step(s, a).alc.bounds && Step(s, a).alc.bounds[v] == s.alc.bounds[v]
  {
    GrantsChangeExactly(s, a);
    if a.ServerStep? && s.srv.pc.WriteRecord? {
      var n := s.srv.pc.newVer;
      NextVersionIsSafe(s.epochSlots, s.reg.current);
      assert n in s.alc.bounds ==> BoundFits(s, n);
    }
    hide LaneInv, NextVersion, SlotOfVersion;
  }

  lemma {:induction false} RunRemembers(s: State, actions: seq<Action>)
    requires SafetyInv(s) && LaneInv(s)
    ensures s.alc.grants <= Run(s, actions).alc.grants
    ensures forall v :: v in s.alc.bounds ==>
      v in Run(s, actions).alc.bounds && Run(s, actions).alc.bounds[v] == s.alc.bounds[v]
  {
    if actions != [] {
      var n := |actions| - 1;
      RunRemembers(s, actions[..n]);
      EveryRunKeepsLanes(s, actions[..n]);
      StepRemembers(Run(s, actions[..n]), actions[n]);
      hide SafetyInv, LaneInv, Step;
    }
  }

  /** How many grants have this index. */
  function TimesGranted(gs: seq<Grant>, x: nat): nat {
    if gs == [] then 0 else TimesGranted(gs[..|gs| - 1], x) + if gs[|gs| - 1].index == x then 1 else 0
  }

  lemma {:induction false} AtMostOnce(gs: seq<Grant>, x: nat)
    requires GrantsDistinct(gs)
    ensures TimesGranted(gs, x) == if exists g :: g in gs && g.index == x then 1 else 0
  {
    if gs != [] {
      var n := |gs| - 1;
      AtMostOnce(gs[..n], x);
      assert gs == gs[..n] + [gs[n]];
    }
  }

  /** Under every interleaving: an index that reaches its bound check is granted by it exactly if it is below the
      capacity of the epoch the client picked, and the grant is there, once, after whatever follows. */
  lemma CheckedIndexIsGranted(slots: nat, laneCount: nat, bulkLoaded: nat, entries: nat, clients: set<nat>,
      before: seq<Action>, c: nat, v: nat, x: nat, after: seq<Action>)
    requires slots >= 3 && laneCount > 0 && bulkLoaded <= entries
    requires MayCheck(Run(Initial(slots, laneCount, bulkLoaded, entries, clients), before), c, v, x)
    ensures var t := Run(Run(Initial(slots, laneCount, bulkLoaded, entries, clients), before + [CheckBound(c)]), after);
      && v in t.alc.bounds
      && (Grant(x, v) in t.alc.grants <==> x < t.alc.bounds[v])
      && (x < t.alc.bounds[v] ==> TimesGranted(t.alc.grants, x) == 1)
  {
    var s0 := Initial(slots, laneCount, bulkLoaded, entries, clients);
    InitialIsSafe(slots, laneCount, bulkLoaded, entries, clients);
    InitialLanes(slots, laneCount, bulkLoaded, entries, clients);
    EveryRunKeepsLanes(s0, before);
    EveryRunKeepsLanes(s0, before + [CheckBound(c)]);
    var s, u := Run(s0, before), Run(s0, before + [CheckBound(c)]);
    assert u == Step(s, CheckBound(c)) by { assert (before + [CheckBound(c)])[..|before|] == before; }
    CheckGrants(s, c, v, x);
    RunRemembers(u, after);
    EveryRunKeepsLanes(u, after);
    var t := Run(u, after);
    hide SafetyInv, Run, Step, Initial, MayCheck;
    if x < s.alc.bounds[v] {
      assert Grant(x, v) == u.alc.grants[|s.alc.grants|] == t.alc.grants[|s.alc.grants|];
      AtMostOnce(t.alc.grants, x);
    } else {
      assert Grant(x, v) in t.alc.grants ==> GrantFits(t, Grant(x, v));
    }
  }

  // ----- a client on its own -----

  /** The client allocates `k` times. */
  function Allocations(c: nat, k: nat): (actions: seq<Action>) {
    if k == 0 then [] else Allocations(c, k - 1) + [Pick(c), FetchAdd(c), CheckBound(c)]
  }

  lemma ThreeSteps(s: State, a: seq<Action>, c: nat)
    requires Shaped(s)
    ensures var t := Run(s, a);
      var t1 := Step(t, Pick(c));
      Shaped(t1) && Shaped(Step(t1, FetchAdd(c)))
      && Run(s, a + [Pick(c), FetchAdd(c), CheckBound(c)]) == Step(Step(t1, FetchAdd(c)), CheckBound(c))
  {
    var b := a + [Pick(c)];
    var d := b + [FetchAdd(c)];
    var e := d + [CheckBound(c)];
    assert e == a + [Pick(c), FetchAdd(c), CheckBound(c)];
    assert b[..|a|] == a && d[..|b|] == b && e[..|d|] == d;
    StepShaped(Run(s, a), Pick(c));
    StepShaped(Run(s, b), FetchAdd(c));
    hide Step;
  }

  /** The first two steps. */
  lemma PickAndFetch(s: State, c: nat)
    requires ControlInv(s) && LaneInv(s) && c in s.alc.clients && s.alc.clients[c] == Resting
    ensures Shaped(Step(s, Pick(c)))
    ensures var n, v := |s.reg.lanes|, s.reg.current;
      var x := s.reg.lanes[c % n];
      var t := Step(Step(s, Pick(c)), FetchAdd(c));
      && LaneInv(t) && MayCheck(t, c, v, x)
      && t == s.(reg := s.reg.(lanes := s.reg.lanes[c % n := x + n]),
                 alc := s.alc.(clients := s.alc.clients[c := Fetched(v, x)]))
  {
    hide LaneInv, ControlInv;
    ControlShape(s);
    StepShaped(s, Pick(c));
    PickTakesCurrent(s, c);
    PickKeeps(s, c);
    FetchTakesFromLane(Step(s, Pick(c)), c, s.reg.current);
    FetchKeeps(Step(s, Pick(c)), c);
    CurrentIsReached(s);
  }

  /** One allocation that nothing interrupts gives the next index of the client's lane, unless the lane has come to the
      capacity of the current epoch. */
  lemma AllocationAlone(s: State, c: nat)
    requires ControlInv(s) && LaneInv(s) && c in s.alc.clients && s.alc.clients[c] == Resting
    ensures var t1 := Step(s, Pick(c));
      Shaped(t1) && Shaped(Step(t1, FetchAdd(c)))
    ensures var n, v := |s.reg.lanes|, s.reg.current;
      var x := s.reg.lanes[c % n];
      && v in s.alc.bounds
      && Step(Step(Step(s, Pick(c)), FetchAdd(c)), CheckBound(c)) == s.(
           reg := s.reg.(lanes := s.reg.lanes[c % n := x + n]),
           alc := s.alc.(grants := if x < s.alc.bounds[v] then s.alc.grants + [Grant(x, v)] else s.alc.grants))
  {
    hide LaneInv, ControlInv, Step;
    ControlShape(s);
    var n, v := |s.reg.lanes|, s.reg.current;
    var x := s.reg.lanes[c % n];
    PickAndFetch(s, c);
    CheckGrants(Step(Step(s, Pick(c)), FetchAdd(c)), c, v, x);
    assert s.alc.clients[c := Fetched(v, x)][c := Resting] == s.alc.clients;
  }

  lemma CurrentIsReached(s: State)
    requires ControlInv(s)
    ensures |s.reg.epochs| == s.epochSlots > 0
    ensures s.reg.epochs[s.reg.current % s.epochSlots].version == s.reg.current
  {
    MaskedIsRemainder(s.reg.current, s.epochSlots);
  }

  /** The indices `start`, `start + n`, ... below the capacity, one for each of `k` allocations as long as there were
      any. */
  predicate LaneGrants(gs: seq<Grant>, start: nat, n: nat, entries: nat, k: nat) {
    && |gs| <= k && (|gs| < k ==> start + |gs| * n >= entries)
    && forall j {:trigger gs[j]} :: 0 <= j < |gs| ==> gs[j] == Grant(start + j * n, 1) && start + j * n < entries
  }

  lemma OneMoreGrant(gs: seq<Grant>, start: nat, n: nat, entries: nat, k: nat)
    requires LaneGrants(gs, start, n, entries, k)
    ensures var x := start + k * n;
      LaneGrants(if x < entries then gs + [Grant(x, 1)] else gs, start, n, entries, k + 1)
  {
    if |gs| < k { Ordered(|gs|, k, n); }
  }

  /** The client is at rest and has been granted these indices. */
  predicate HandedOut(s: State, start: nat, n: nat, entries: nat, c: nat, k: nat) {
    && s.reg.current == 1 && 1 in s.alc.bounds && s.alc.bounds[1] == entries
    && c in s.alc.clients && s.alc.clients[c] == Resting
    && n > 0 && |s.reg.lanes| == n && s.reg.lanes[c % n] == start + k * n
    && LaneGrants(s.alc.grants, start, n, entries, k)
  }

  lemma OneMore(s: State, start: nat, n: nat, entries: nat, c: nat, k: nat)
    requires ControlInv(s) && LaneInv(s) && HandedOut(s, start, n, entries, c, k)
    ensures var t1 := Step(s, Pick(c));
      Shaped(t1) && Shaped(Step(t1, FetchAdd(c)))
      && HandedOut(Step(Step(t1, FetchAdd(c)), CheckBound(c)), start, n, entries, c, k + 1)
  {
    hide LaneInv, ControlInv, Step, LaneGrants;
    AllocationAlone(s, c);
    OneMoreGrant(s.alc.grants, start, n, entries, k);
    assert (k + 1) * n == k * n + n by { NextMultiple(k, n); }
  }

  lemma NextMultiple(k: nat, n: nat)
    ensures (k + 1) * n == k * n + n
  {
  }

  lemma NothingYet(slots: nat, laneCount: nat, bulkLoaded: nat, entries: nat, clients: set<nat>, c: nat)
    requires slots >= 3 && laneCount > 0 && bulkLoaded <= entries && c in clients
    ensures HandedOut(Run(Initial(slots, laneCount, bulkLoaded, entries, clients), Allocations(c, 0)),
                bulkLoaded + c % laneCount, laneCount, entries, c, 0)
  {
    hide Step;
  }

  /** A client that allocates alone from a published registry is granted the indices of its lane, in order and without a
      gap, until they reach the capacity; from then on it is refused. */
  lemma {:induction false} LaneIsHandedOut(slots: nat, laneCount: nat, bulkLoaded: nat, entries: nat, clients: set<nat>,
      c: nat, k: nat)
    requires slots >= 3 && laneCount > 0 && bulkLoaded <= entries && c in clients
    ensures HandedOut(Run(Initial(slots, laneCount, bulkLoaded, entries, clients), Allocations(c, k)),
                bulkLoaded + c % laneCount, laneCount, entries, c, k)
    decreases k
  {
    hide HandedOut, Step;
    var s0 := Initial(slots, laneCount, bulkLoaded, entries, clients);
    if k == 0 {
      NothingYet(slots, laneCount, bulkLoaded, entries, clients, c);
    } else {
      LaneIsHandedOut(slots, laneCount, bulkLoaded, entries, clients, c, k - 1);
      InitialIsSafe(slots, laneCount, bulkLoaded, entries, clients);
      InitialLanes(slots, laneCount, bulkLoaded, entries, clients);
      EveryRunKeepsLanes(s0, Allocations(c, k - 1));
      ThreeSteps(s0, Allocations(c, k - 1), c);
      OneMore(Run(s0, Allocations(c, k - 1)), bulkLoaded + c % laneCount, laneCount, entries, c, k - 1);
      hide LaneInv, ControlInv, Run, Initial;
    }
  }

  lemma Ordered(a: nat, b: nat, n: nat)
    requires a <= b
    ensures a * n <= b * n
  {
  }
}
