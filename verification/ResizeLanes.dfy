/** No packed-array index is granted twice: the lane allocator under every interleaving with resizes. */
module ResizeLanes {
  import opened Hashing
  import opened ResizeMachine
  import opened ResizeSafety

  /** How many lanes the running copy has already moved to the new region's range. */
  function LanesReset(s: State): nat {
    match s.srv.pc
    case ResetLane(_, _, i) => i
    case Publish(_, _) => |s.reg.lanes|
    case StorePrevious(_, _) => |s.reg.lanes|
    case StoreCurrent(_, _) => |s.reg.lanes|
    case _ => 0
  }

  /** The capacity of a version that clients may have picked. */
  predicate Known(s: State, v: nat) {
    v in s.alc.bounds && 0 < v <= s.reg.current
  }

  /** A fetched index that its client is still entitled to. */
  predicate Entitled(s: State, c: nat) {
    && c in s.alc.clients && s.alc.clients[c].Fetched?
    && s.alc.clients[c].version in s.alc.bounds && s.alc.clients[c].index < s.alc.bounds[s.alc.clients[c].version]
  }

  /** A lane holds a number of its own residue class, counted from where the lanes started. */
  predicate LaneFits(s: State, i: nat)
    requires Shaped(s) && s.reg.current in s.alc.bounds && i < |s.reg.lanes|
  {
    var start := if i < LanesReset(s) then s.alc.bounds[s.reg.current] else s.alc.base;
    s.reg.lanes[i] >= start && Masked(s.reg.lanes[i] - start, |s.reg.lanes|) == i
  }

  /** An index at or above the current start was taken from its lane, which has moved past it. */
  predicate Passed(s: State, x: nat)
    requires Shaped(s)
  {
    x >= s.alc.base ==>
      var i := Masked(x - s.alc.base, |s.reg.lanes|);
      i < LanesReset(s) || x < s.reg.lanes[i]
  }

  /** The version whose record is written but which is not current yet; 0 for none. */
  function Upcoming(s: State): nat {
    match s.srv.pc
    case ResetLane(_, n, _) => n
    case Publish(_, n) => n
    case StorePrevious(_, n) => n
    case StoreCurrent(_, n) => n
    case _ => 0
  }

  /** Capacities: the current version's record agrees with the history, older versions fit below the lanes'
      start, and the upcoming version doubles the current one. */
  ghost predicate BoundsFit(s: State)
    requires Shaped(s)
  {
    && s.reg.current in s.alc.bounds
    && s.bulkLoaded <= s.alc.base <= s.alc.bounds[s.reg.current]
    && (forall v :: v in s.alc.bounds ==> BoundFits(s, v))
    && (forall i :: 0 <= i < |s.reg.epochs| ==> RecordFits(s, i))
    && (Upcoming(s) > 0 ==> Upcoming(s) in s.alc.bounds)
  }

  ghost predicate BoundFits(s: State, v: nat)
    requires v in s.alc.bounds && s.reg.current in s.alc.bounds
  {
    if v == s.reg.current then true
    else if v < s.reg.current then s.alc.bounds[v] <= s.alc.base
    else v == Upcoming(s) && s.alc.bounds[v] == 2 * s.alc.bounds[s.reg.current]
  }

  /** A record sits in the slot of its version and carries that version's capacity. */
  predicate RecordFits(s: State, i: nat)
    requires Shaped(s) && i < |s.reg.epochs|
  {
    var e := s.reg.epochs[i];
    e.version > 0 ==>
      SlotOfVersion(s.epochSlots, e.version) == i && e.version in s.alc.bounds && e.entries == s.alc.bounds[e.version]
  }

  lemma CurrentEntries(s: State)
    requires ControlInv(s) && BoundsFit(s)
    ensures EpochOf(s.reg, s.reg.current).entries == s.alc.bounds[s.reg.current]
  {
    assert RecordFits(s, SlotOfVersion(s.epochSlots, s.reg.current));
  }

  predicate ClientFits(s: State, c: nat) {
    c in s.alc.clients && !s.alc.clients[c].Resting? ==> Known(s, s.alc.clients[c].version)
  }

  predicate EntitledFits(s: State, c: nat)
    requires Shaped(s)
  {
    Entitled(s, c) ==>
      var x := s.alc.clients[c].index;
      s.bulkLoaded <= x && Passed(s, x) && forall g :: g in s.alc.grants ==> g.index != x
  }

  predicate ClientsApart(s: State, c: nat, d: nat) {
    c != d && Entitled(s, c) && Entitled(s, d) ==> s.alc.clients[c].index != s.alc.clients[d].index
  }

  predicate GrantFits(s: State, g: Grant)
    requires Shaped(s)
  {
    && Known(s, g.version) && s.bulkLoaded <= g.index < s.alc.bounds[g.version]
    && Passed(s, g.index)
  }

  predicate GrantsDistinct(gs: seq<Grant>) {
    forall i, j :: 0 <= i < j < |gs| ==> gs[i].index != gs[j].index
  }

  ghost predicate LaneInv(s: State) {
    && Shaped(s) && BoundsFit(s)
    && (forall i :: 0 <= i < |s.reg.lanes| ==> LaneFits(s, i))
    && (forall c :: ClientFits(s, c))
    && (forall c :: EntitledFits(s, c))
    && (forall c, d :: ClientsApart(s, c, d))
    && (forall g :: g in s.alc.grants ==> GrantFits(s, g))
    && GrantsDistinct(s.alc.grants)
  }

  // ----- client steps -----

  /** Nothing moved but the clients and grants. */
  lemma PickKeeps(s: State, c: nat)
    requires ControlInv(s) && LaneInv(s)
    ensures LaneInv(StepPick(s, c))
  {
    hide PcFits, PendingFits, RegionsFit, BoundFits, RecordFits;
    var t := StepPick(s, c);
    BoundsFrame(s, t);
    forall d ensures ClientFits(t, d) && EntitledFits(t, d) {
      assert ClientFits(s, d) && EntitledFits(s, d);
    }
    forall d, e ensures ClientsApart(t, d, e) { assert ClientsApart(s, d, e); }
    forall g | g in t.alc.grants ensures GrantFits(t, g) { assert GrantFits(s, g); }
    forall i | 0 <= i < |t.reg.lanes| ensures LaneFits(t, i) { assert LaneFits(s, i); }
  }

  lemma BoundsFrame(s: State, t: State)
    requires Shaped(s) && Shaped(t) && BoundsFit(s) && t.epochSlots == s.epochSlots && t.bulkLoaded == s.bulkLoaded
    requires t.reg.epochs == s.reg.epochs && t.reg.current == s.reg.current && Upcoming(t) == Upcoming(s)
    requires t.alc.bounds == s.alc.bounds && t.alc.base == s.alc.base
    ensures BoundsFit(t)
  {
    forall v | v in t.alc.bounds ensures BoundFits(t, v) { assert BoundFits(s, v); }
    forall i | 0 <= i < |t.reg.epochs| ensures RecordFits(t, i) { assert RecordFits(s, i); }
  }

  /** Whatever a lane hands out next was never handed out before, unless the client is not entitled to it. */
  lemma NextIsNew(s: State, i: nat, v: nat)
    requires LaneInv(s) && i < |s.reg.lanes| && Known(s, v)
    ensures s.reg.lanes[i] >= s.bulkLoaded
    ensures s.reg.lanes[i] < s.alc.bounds[v] ==>
              && i >= LanesReset(s) && s.reg.lanes[i] >= s.alc.base
              && Masked(s.reg.lanes[i] - s.alc.base, |s.reg.lanes|) == i
    ensures s.reg.lanes[i] < s.alc.bounds[v] ==> !Passed(s, s.reg.lanes[i])
  {
    assert LaneFits(s, i) && BoundFits(s, v);
  }

  lemma AdvanceLane(s: State, t: State, i: nat, x: nat)
    requires Shaped(s) && Shaped(t) && t.srv == s.srv && t.alc.base == s.alc.base && i < |s.reg.lanes|
    requires t.reg.lanes == s.reg.lanes[i := s.reg.lanes[i] + |s.reg.lanes|]
    requires Passed(s, x)
    ensures Passed(t, x)
  {
  }

  lemma FetchKeeps(s: State, c: nat)
    requires LaneInv(s)
    ensures LaneInv(StepFetchAdd(s, c))
  {
    var t := StepFetchAdd(s, c);
    if c in s.alc.clients && s.alc.clients[c].Picked? {
      var i := LaneOf(s.reg.lanes, c);
      var v, x := s.alc.clients[c].version, s.reg.lanes[i];
      assert ClientFits(s, c);
      NextIsNew(s, i, v);
      BoundsFrame(s, t);
      hide BoundsFit, Known;
      forall j | 0 <= j < |t.reg.lanes| ensures LaneFits(t, j) { assert LaneFits(s, j); }
      forall d ensures ClientFits(t, d) { assert ClientFits(s, d); }
      forall g | g in t.alc.grants ensures GrantFits(t, g) && (Entitled(t, c) ==> g.index != x) {
        assert GrantFits(s, g);
        AdvanceLane(s, t, i, g.index);
      }
      forall d ensures EntitledFits(t, d) {
        assert EntitledFits(s, d);
        if d != c && Entitled(s, d) { AdvanceLane(s, t, i, s.alc.clients[d].index); }
      }
      forall d, e ensures ClientsApart(t, d, e) {
        assert ClientsApart(s, d, e) && EntitledFits(s, d) && EntitledFits(s, e);
      }
    }
  }

  lemma CheckKeeps(s: State, c: nat)
    requires LaneInv(s)
    ensures LaneInv(StepCheckBound(s, c))
  {
    var t := StepCheckBound(s, c);
    BoundsFrame(s, t);
    forall j | 0 <= j < |t.reg.lanes| ensures LaneFits(t, j) { assert LaneFits(s, j); }
    assert ClientFits(s, c) && EntitledFits(s, c);
    if c in s.alc.clients && s.alc.clients[c].Fetched? {
      assert RecordFits(s, SlotOfVersion(s.epochSlots, s.alc.clients[c].version));
    }
    hide BoundsFit, Masked;
    forall d ensures ClientFits(t, d) && EntitledFits(t, d) {
      assert ClientFits(s, d) && EntitledFits(s, d) && ClientsApart(s, c, d);
    }
    forall d, e ensures ClientsApart(t, d, e) { assert ClientsApart(s, d, e); }
    forall g | g in t.alc.grants ensures GrantFits(t, g) {
      if g in s.alc.grants { assert GrantFits(s, g); }
    }
  }

  // ----- server steps -----

  /** Writing the upcoming record adds a capacity that no client knows yet. */
  lemma RecordKeeps(s: State)
    requires ControlInv(s) && LaneInv(s) && s.srv.pc.WriteRecord?
    ensures LaneInv(StepCopy(s))
  {
    var t := StepCopy(s);
    var n := s.srv.pc.newVer;
    CurrentEntries(s);
    NextVersionIsSafe(s.epochSlots, s.reg.current);
    hide NextVersion, SlotOfVersion, Masked;
    assert n in s.alc.bounds ==> BoundFits(s, n);
    forall v | v in t.alc.bounds ensures BoundFits(t, v) { if v != n { assert BoundFits(s, v); } }
    forall i | 0 <= i < |t.reg.epochs| ensures RecordFits(t, i) { assert RecordFits(s, i); }
    forall j | 0 <= j < |t.reg.lanes| ensures LaneFits(t, j) { assert LaneFits(s, j); }
    forall d ensures ClientFits(t, d) && EntitledFits(t, d) { assert ClientFits(s, d) && EntitledFits(s, d); }
    forall d, e ensures ClientsApart(t, d, e) {
      assert ClientsApart(s, d, e) && ClientFits(s, d) && ClientFits(s, e);
    }
    forall g | g in t.alc.grants ensures GrantFits(t, g) { assert GrantFits(s, g); }
  }

  /** Moving one lane to the new region's range. */
  lemma ResetKeeps(s: State)
    requires ControlInv(s) && LaneInv(s) && s.srv.pc.ResetLane?
    ensures LaneInv(StepCopy(s))
  {
    var t := StepCopy(s);
    CurrentEntries(s);
    BoundsFrame(s, t);
    hide BoundsFit, PendingFits, RegionsFit;
    forall j | 0 <= j < |t.reg.lanes| ensures LaneFits(t, j) { assert LaneFits(s, j); }
    forall d ensures ClientFits(t, d) && EntitledFits(t, d) { assert ClientFits(s, d) && EntitledFits(s, d); }
    forall d, e ensures ClientsApart(t, d, e) { assert ClientsApart(s, d, e); }
    forall g | g in t.alc.grants ensures GrantFits(t, g) { assert GrantFits(s, g); }
  }

  /** Every index a client can hold is below the new start of the lanes. */
  lemma SwitchKeeps(s: State)
    requires ControlInv(s) && LaneInv(s) && s.srv.pc.StoreCurrent?
    ensures LaneInv(StepCopy(s))
  {
    var t := StepCopy(s);
    var n := s.srv.pc.newVer;
    CurrentEntries(s);
    NextVersionIsSafe(s.epochSlots, s.reg.current);
    hide NextVersion, SlotOfVersion;
    assert BoundFits(s, n);
    forall v | v in t.alc.bounds ensures BoundFits(t, v) { assert BoundFits(s, v); }
    forall i | 0 <= i < |t.reg.epochs| ensures RecordFits(t, i) { assert RecordFits(s, i); }
    forall j | 0 <= j < |t.reg.lanes| ensures LaneFits(t, j) { assert LaneFits(s, j); }
    forall d ensures ClientFits(t, d) && EntitledFits(t, d) {
      assert ClientFits(s, d) && EntitledFits(s, d);
      if Entitled(s, d) { assert BoundFits(s, s.alc.clients[d].version); }
    }
    forall d, e ensures ClientsApart(t, d, e) { assert ClientsApart(s, d, e); }
    forall g | g in t.alc.grants ensures GrantFits(t, g) { assert GrantFits(s, g) && BoundFits(s, g.version); }
  }

  /** Steps that write neither lanes, nor capacities, nor the current version. */
  lemma QuietKeeps(s: State, t: State)
    requires LaneInv(s) && Shaped(t) && t.epochSlots == s.epochSlots && t.bulkLoaded == s.bulkLoaded && t.alc == s.alc
    requires t.reg.lanes == s.reg.lanes && t.reg.current == s.reg.current
    requires Upcoming(t) == Upcoming(s) && LanesReset(t) == LanesReset(s)
    requires forall i :: 0 <= i < |t.reg.epochs| ==>
      t.reg.epochs[i].version == s.reg.epochs[i].version && t.reg.epochs[i].entries == s.reg.epochs[i].entries
    ensures LaneInv(t)
  {
    forall v | v in t.alc.bounds ensures BoundFits(t, v) { assert BoundFits(s, v); }
    forall i | 0 <= i < |t.reg.epochs| ensures RecordFits(t, i) { assert RecordFits(s, i); }
    forall j | 0 <= j < |t.reg.lanes| ensures LaneFits(t, j) { assert LaneFits(s, j); }
    forall d ensures ClientFits(t, d) && EntitledFits(t, d) { assert ClientFits(s, d) && EntitledFits(s, d); }
    forall d, e ensures ClientsApart(t, d, e) { assert ClientsApart(s, d, e); }
    forall g | g in t.alc.grants ensures GrantFits(t, g) { assert GrantFits(s, g); }
  }

  lemma OtherStepsAreQuiet(s: State, choice: bool)
    requires Shaped(s) && PcFits(s) && LaneInv(s)
    requires !s.srv.pc.WriteRecord? && !s.srv.pc.ResetLane? && !s.srv.pc.StoreCurrent?
    ensures LaneInv(StepServer(s, choice))
  {
    hide LaneInv;
    QuietKeeps(s, StepServer(s, choice));
  }

  lemma ServerKeeps(s: State, choice: bool)
    requires ControlInv(s) && LaneInv(s)
    ensures LaneInv(StepServer(s, choice))
  {
    hide LaneInv, ControlInv;
    ControlShape(s);
    match s.srv.pc {
      case WriteRecord(_, _) => RecordKeeps(s);
      case ResetLane(_, _, _) => ResetKeeps(s);
      case StoreCurrent(_, _) => SwitchKeeps(s);
      case _ => OtherStepsAreQuiet(s, choice);
    }
  }

  lemma LanesPreserved(s: State, a: Action)
    requires ControlInv(s) && LaneInv(s)
    ensures LaneInv(Step(s, a))
  {
    hide LaneInv, ControlInv;
    match a {
      case ServerStep(choice) => ServerKeeps(s, choice);
      case Pick(c) => PickKeeps(s, c);
      case FetchAdd(c) => FetchKeeps(s, c);
      case CheckBound(c) => CheckKeeps(s, c);
      case _ => HandlersKeep(s, a);
    }
  }

  lemma HandlersKeep(s: State, a: Action)
    requires LaneInv(s) && (a.CheckFlag? || a.Enqueue?)
    ensures LaneInv(Step(s, a))
  {
    assert Step(s, a).reg == s.reg && Step(s, a).srv == s.srv && Step(s, a).alc == s.alc;
    QuietKeeps(s, Step(s, a));
    hide LaneInv;
  }

  lemma InitialLanes(slots: nat, laneCount: nat, bulkLoaded: nat, entries: nat, clients: set<nat>)
    requires slots >= 3 && laneCount > 0 && bulkLoaded <= entries
    ensures LaneInv(Initial(slots, laneCount, bulkLoaded, entries, clients))
  {
    var s := Initial(slots, laneCount, bulkLoaded, entries, clients);
    forall i | 0 <= i < |s.reg.lanes| ensures LaneFits(s, i) { }
    forall i | 0 <= i < |s.reg.epochs| ensures RecordFits(s, i) { }
    forall v | v in s.alc.bounds ensures BoundFits(s, v) { }
  }

  lemma {:induction false} EveryRunKeepsLanes(s: State, actions: seq<Action>)
    requires SafetyInv(s) && LaneInv(s)
    ensures SafetyInv(Run(s, actions)) && LaneInv(Run(s, actions))
  {
    EveryRunIsSafe(s, actions);
    if actions != [] {
      var n := |actions| - 1;
      EveryRunKeepsLanes(s, actions[..n]);
      LanesPreserved(Run(s, actions[..n]), actions[n]);
      hide LaneInv, SafetyInv, Step;
    }
  }

  /** Under every interleaving of clients, handlers and resizes from a published registry: no index is
      granted twice, none is a bulk-loaded entry, and each is below the capacity of the epoch it was checked against. */
  lemma NoIndexIsGrantedTwice(slots: nat, laneCount: nat, bulkLoaded: nat, entries: nat, clients: set<nat>,
      actions: seq<Action>)
    requires slots >= 3 && laneCount > 0 && bulkLoaded <= entries
    ensures var s := Run(Initial(slots, laneCount, bulkLoaded, entries, clients), actions);
      && GrantsDistinct(s.alc.grants)
      && forall g :: g in s.alc.grants ==>
           bulkLoaded <= g.index && g.version in s.alc.bounds && g.index < s.alc.bounds[g.version]
  {
    var s0 := Initial(slots, laneCount, bulkLoaded, entries, clients);
    InitialIsSafe(slots, laneCount, bulkLoaded, entries, clients);
    InitialLanes(slots, laneCount, bulkLoaded, entries, clients);
    EveryRunKeepsLanes(s0, actions);
    RunKeepsBulkLoaded(s0, actions);
    var s := Run(s0, actions);
    forall g | g in s.alc.grants
      ensures bulkLoaded <= g.index && g.version in s.alc.bounds && g.index < s.alc.bounds[g.version]
    {
      assert GrantFits(s, g);
    }
  }

  lemma {:induction false} RunKeepsBulkLoaded(s: State, actions: seq<Action>)
    requires Shaped(s)
    ensures Run(s, actions).bulkLoaded == s.bulkLoaded
  {
    if actions != [] {
      var n := |actions| - 1;
      RunKeepsBulkLoaded(s, actions[..n]);
      StepShaped(Run(s, actions[..n]), actions[n]);
      hide Step;
    }
  }
}
