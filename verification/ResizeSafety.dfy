/** Safety of online resizing over every run: versions and epoch slots, the record reached through the
    current version, reclaimed regions, the blocking flag, and the deferred queues. */
module ResizeSafety {
  import opened Hashing
  import opened ResizeMachine

  // ----- versions and their slots -----

  lemma {:induction false} MaskedSuccessor(v: nat, n: nat)
    requires n > 0
    ensures Masked(v + 1, n) == if Masked(v, n) + 1 == n then 0 else Masked(v, n) + 1
    decreases v
  {
    if v >= n {
      MaskedSuccessor(v - n, n);
      assert Masked(v + 1, n) == Masked(v + 1 - n, n);
    }
  }

  /** With three slots or more, the next version is larger and has a slot of its own that is not slot 0. */
  lemma NextVersionIsSafe(slots: nat, v: nat)
    requires slots >= 3 && SlotOfVersion(slots, v) != 0
    ensures var w := NextVersion(slots, v);
      v < w <= v + 2 && SlotOfVersion(slots, w) != 0 && SlotOfVersion(slots, w) != SlotOfVersion(slots, v)
  {
    MaskedSuccessor(v, slots);
    MaskedSuccessor(v + 1, slots);
  }

  /** The next version is the successor, unless the successor's slot would be 0. */
  lemma NextVersionIs(slots: nat, v: nat)
    requires slots > 0
    ensures NextVersion(slots, v) == if (v + 1) % slots == 0 then v + 2 else v + 1
    ensures SlotOfVersion(slots, v) == v % slots
  {
    MaskedIsRemainder(v, slots);
    MaskedIsRemainder(v + 1, slots);
  }

  /** Two slots are too few: every next version would be written into the very slot clients read. */
  lemma TwoSlotsAreTooFew(v: nat)
    requires SlotOfVersion(2, v) != 0
    ensures NextVersion(2, v) == v + 2 && SlotOfVersion(2, v + 2) == SlotOfVersion(2, v)
  {
    MaskedSuccessor(v, 2);
    MaskedSuccessor(v + 1, 2);
  }

  // ----- control -----

  /** The phase changes the server makes, with what it does afterwards. */
  predicate Transition(s: State, target: Phase, after: Pc) {
    match s.reg.phase
    case Normal => target.PreResize? && after.Idle?
    case PreResize => target.Copying? && after == CreateRegion(s.reg.current)
    case Copying =>
      (target.Normal? && after.Idle?) || (target.ReadyToSwitch? && after == TakeOver(s.reg.previous, s.reg.current))
    case ReadyToSwitch => target.DrainOld? && after.Idle?
    case DrainOld => target.GcPending? && after.Idle?
    case GcPending => target.Normal? && after.Idle?
  }

  /** A resize from version `o` to version `n` whose record has been written. */
  predicate Prepared(s: State, o: nat, n: nat)
    requires Shaped(s)
  {
    && s.reg.phase.Copying? && o == s.reg.current && n == NextVersion(s.epochSlots, o)
    && EpochOf(s.reg, n).version == n && EpochOf(s.reg, n).entries == 2 * EpochOf(s.reg, o).entries
  }

  /** The new version is current, the old region is still the server's. */
  predicate Switched(s: State, o: nat, n: nat) {
    s.epochSlots > 0 && o == s.reg.previous && n == s.reg.current && o > 0 && n == NextVersion(s.epochSlots, o)
  }

  predicate PcFits(s: State)
    requires Shaped(s)
  {
    match s.srv.pc
    case Idle => !s.reg.phase.Copying?
    case SetFlag(t, after) => Transition(s, t, after) && (after.TakeOver? ==> Switched(s, after.oldVer, after.newVer))
    case SetPhase(t, after) => Transition(s, t, after) && (after.TakeOver? ==> Switched(s, after.oldVer, after.newVer))
    case BumpAfterPhase(after) =>
      if after.TakeOver? then s.reg.phase.ReadyToSwitch? && Switched(s, after.oldVer, after.newVer)
      else if after.CreateRegion? then s.reg.phase.Copying? && after.oldVer == s.reg.current
      else after.Idle? && !s.reg.phase.Copying?
    case CreateRegion(o) => s.reg.phase.Copying? && o == s.reg.current
    case WriteRecord(o, n) => s.reg.phase.Copying? && o == s.reg.current && n == NextVersion(s.epochSlots, o)
    case ResetLane(o, n, i) => Prepared(s, o, n) && i <= |s.reg.lanes|
    case Publish(o, n) => Prepared(s, o, n)
    case StorePrevious(o, n) => Prepared(s, o, n) && EpochOf(s.reg, n).published
    case StoreCurrent(o, n) => Prepared(s, o, n) && EpochOf(s.reg, n).published && s.reg.previous == o
    case BumpAfterSwitch(o, n) => s.reg.phase.Copying? && Switched(s, o, n)
    case TakeOver(o, n) => s.reg.phase.ReadyToSwitch? && Switched(s, o, n)
    case ReplayInserts => s.reg.phase.DrainOld?
    case ReplayDeletes => s.reg.phase.DrainOld?
    case AllowCleanup => s.reg.phase.DrainOld?
    case ReleaseRegion => s.reg.phase.GcPending?
    case ClearPrevious => s.reg.phase.GcPending?
    case BumpAfterGc => s.reg.phase.GcPending?
  }

  /** Between the switch and the take-over the server still holds the old region. */
  predicate BeforeTakeOver(pc: Pc) {
    match pc
    case SetFlag(_, after) => after.TakeOver?
    case SetPhase(_, after) => after.TakeOver?
    case BumpAfterPhase(after) => after.TakeOver?
    case BumpAfterSwitch(_, _) => true
    case TakeOver(_, _) => true
    case _ => false
  }

  predicate AfterRelease(pc: Pc) {
    match pc
    case SetFlag(t, _) => t.Normal?
    case SetPhase(t, _) => t.Normal?
    case ClearPrevious => true
    case BumpAfterGc => true
    case _ => false
  }

  /** An old region is pending from the take-over until it is released, and at no other time. */
  predicate PendingFits(s: State) {
    if (s.reg.phase.ReadyToSwitch? || s.reg.phase.DrainOld? || s.reg.phase.GcPending?) && !BeforeTakeOver(s.srv.pc) &&
        !AfterRelease(s.srv.pc)
    then s.srv.pendingOld > 0 && s.epochSlots > 0 && s.reg.current == NextVersion(s.epochSlots, s.srv.pendingOld)
    else s.srv.pendingOld == 0
  }

  /** Regions that clients or the server may still use have not been unlinked. */
  predicate RegionsFit(s: State) {
    && s.srv.region == (if BeforeTakeOver(s.srv.pc) then s.reg.previous else s.reg.current)
    && (forall r :: r in s.srv.released ==> r < s.srv.region && r < s.reg.current)
    && 0 !in s.srv.released && s.srv.pendingOld !in s.srv.released
  }

  /** The record that clients reach through the current version is published and describes that version. */
  predicate CurrentIsComplete(s: State)
    requires Shaped(s)
  {
    && s.reg.current > 0 && SlotOfVersion(s.epochSlots, s.reg.current) != 0
    && EpochOf(s.reg, s.reg.current).version == s.reg.current && EpochOf(s.reg, s.reg.current).published
  }

  predicate ControlInv(s: State) {
    Shaped(s) && PcFits(s) && PendingFits(s) && RegionsFit(s) && CurrentIsComplete(s)
  }

  lemma MonitorKeepsControl(s: State, choice: bool)
    requires ControlInv(s) && s.srv.pc.Idle?
    ensures ControlInv(Monitor(s, choice))
  {
  }

  lemma CopyKeepsControl(s: State)
    requires ControlInv(s)
    requires s.srv.pc.WriteRecord? || s.srv.pc.ResetLane? || s.srv.pc.Publish? || s.srv.pc.StorePrevious? ||
              s.srv.pc.StoreCurrent?
    ensures ControlInv(StepCopy(s))
  {
    NextVersionIsSafe(s.epochSlots, s.reg.current);
    hide NextVersion, SlotOfVersion;
  }

  lemma PhaseStoresKeepControl(s: State, choice: bool)
    requires ControlInv(s)
    requires s.srv.pc.SetFlag? || s.srv.pc.SetPhase? || s.srv.pc.BumpAfterPhase? || s.srv.pc.CreateRegion? ||
              s.srv.pc.BumpAfterSwitch? || s.srv.pc.TakeOver?
    ensures ControlInv(StepServer(s, choice))
  {
    hide SlotOfVersion;
  }

  lemma DrainKeepsControl(s: State, choice: bool)
    requires ControlInv(s)
    requires s.srv.pc.ReplayInserts? || s.srv.pc.ReplayDeletes? || s.srv.pc.AllowCleanup? || s.srv.pc.ReleaseRegion? ||
              s.srv.pc.ClearPrevious? || s.srv.pc.BumpAfterGc?
    ensures ControlInv(StepServer(s, choice))
  {
    hide SlotOfVersion;
  }

  /** Client and handler steps write neither the control fields nor the epochs. */
  lemma OthersKeepControl(s: State, a: Action)
    requires ControlInv(s) && !a.ServerStep?
    ensures ControlInv(Step(s, a))
  {
    var t := Step(s, a);
    assert t.reg == s.reg.(lanes := t.reg.lanes) && t.srv == s.srv && |t.reg.lanes| == |s.reg.lanes|;
  }

  lemma ControlPreserved(s: State, a: Action)
    requires ControlInv(s)
    ensures ControlInv(Step(s, a))
  {
    hide ControlInv;
    if !a.ServerStep? {
      OthersKeepControl(s, a);
    } else {
      match s.srv.pc {
        case Idle => MonitorKeepsControl(s, a.choice);
        case SetFlag(_, _) => PhaseStoresKeepControl(s, a.choice);
        case SetPhase(_, _) => PhaseStoresKeepControl(s, a.choice);
        case BumpAfterPhase(_) => PhaseStoresKeepControl(s, a.choice);
        case CreateRegion(_) => PhaseStoresKeepControl(s, a.choice);
        case BumpAfterSwitch(_, _) => PhaseStoresKeepControl(s, a.choice);
        case TakeOver(_, _) => PhaseStoresKeepControl(s, a.choice);
        case WriteRecord(_, _) => CopyKeepsControl(s);
        case ResetLane(_, _, _) => CopyKeepsControl(s);
        case Publish(_, _) => CopyKeepsControl(s);
        case StorePrevious(_, _) => CopyKeepsControl(s);
        case StoreCurrent(_, _) => CopyKeepsControl(s);
        case _ => DrainKeepsControl(s, a.choice);
      }
    }
  }

  lemma ControlShape(s: State)
    requires ControlInv(s)
    ensures Shaped(s) && PcFits(s)
  {
  }

  /** The version number only ever moves to a larger version in a different, non-zero slot. */
  lemma VersionsIncrease(s: State, a: Action)
    requires ControlInv(s)
    ensures var v, w := s.reg.current, Step(s, a).reg.current;
      w == v || (w > v && SlotOfVersion(s.epochSlots, w) != 0 &&
          SlotOfVersion(s.epochSlots, w) != SlotOfVersion(s.epochSlots, v))
  {
    NextVersionIsSafe(s.epochSlots, s.reg.current);
    if a.ServerStep? && s.srv.pc.StoreCurrent? {
      assert Prepared(s, s.srv.pc.oldVer, s.srv.pc.newVer);
    }
  }

  /** The copying step never forgets a pending old region. */
  lemma NoPendingRegionIsForgotten(s: State, a: Action)
    requires ControlInv(s)
    ensures var t := Step(s, a);
      s.srv.pendingOld > 0 ==>
          t.srv.pendingOld == s.srv.pendingOld || (t.srv.pendingOld == 0 && s.srv.pendingOld in t.srv.released)
  {
  }

  // ----- the blocking flag -----

  /** The flag follows the phase, except between the two stores of a phase change, where it already has the value of
      the target. */
  predicate FlagInv(s: State) {
    s.reg.blocked == if s.srv.pc.SetPhase? then Blocks(s.srv.pc.target) else Blocks(s.reg.phase)
  }

  lemma FlagPreserved(s: State, a: Action)
    requires ControlInv(s) && FlagInv(s)
    ensures FlagInv(Step(s, a))
  {
  }

  // ----- deferred mutations -----

  predicate LogInv(l: Log) {
    l.enqueued == l.replayed + l.queue
  }

  /** The mutations of one kind, in order. */
  function Kind(ms: seq<Mutation>, insertions: bool): seq<Mutation> {
    if ms == [] then []
    else
      var n := |ms| - 1;
      Kind(ms[..n], insertions) + if ms[n].Insertion? == insertions then [ms[n]] else []
  }

  lemma KindAppend(ms: seq<Mutation>, m: Mutation, insertions: bool)
    ensures Kind(ms + [m], insertions) == Kind(ms, insertions) + if m.Insertion? == insertions then [m] else []
  {
    assert (ms + [m])[..|ms|] == ms;
  }

  predicate DeferralInv(s: State) {
    && LogInv(s.dfr.inserts) && LogInv(s.dfr.deletes)
    && s.dfr.inserts.enqueued == Kind(s.dfr.arrived, true) && s.dfr.deletes.enqueued == Kind(s.dfr.arrived, false)
    && (s.dfr.locked <==> s.srv.pc.ReplayInserts? || s.srv.pc.ReplayDeletes?)
    && (s.srv.pc.ReplayDeletes? ==> s.dfr.inserts.queue == [])
  }

  lemma LogPreserved(l: Log, m: Mutation)
    requires LogInv(l)
    ensures LogInv(Append(l, m)) && (l.queue != [] ==> LogInv(ReplayOne(l)))
  {
    assert l.replayed + (l.queue + [m]) == l.replayed + l.queue + [m];
    if l.queue != [] {
      assert l.replayed + [l.queue[0]] + l.queue[1..] == l.replayed + l.queue;
    }
  }

  lemma DeferralPreserved(s: State, a: Action)
    requires ControlInv(s) && DeferralInv(s)
    ensures DeferralInv(Step(s, a))
  {
    hide LogInv, Kind, PendingFits, RegionsFit, CurrentIsComplete;
    if a.ServerStep? {
      LogPreserved(s.dfr.inserts, Deletion(0));
      LogPreserved(s.dfr.deletes, Deletion(0));
    } else if a.Enqueue? && a.handler < |s.dfr.onTheWay| {
      var m := s.dfr.onTheWay[a.handler];
      LogPreserved(s.dfr.inserts, m);
      LogPreserved(s.dfr.deletes, m);
      KindAppend(s.dfr.arrived, m, true);
      KindAppend(s.dfr.arrived, m, false);
    }
  }

  /** A handler defers its mutation exactly if it reads the flag set. */
  lemma FlagDefers(s: State, m: Mutation)
    requires Shaped(s)
    ensures var t := Step(s, CheckFlag(m));
      && (t.dfr.onTheWay == s.dfr.onTheWay + [m] <==> s.reg.blocked)
      && (t == s <==> !s.reg.blocked)
  {
    assert |s.dfr.onTheWay + [m]| == |s.dfr.onTheWay| + 1;
  }

  /** Unless a drain holds the lock, a handler leaves its mutation at the end of the queue of its kind, or drops it if a
      million are waiting there. */
  lemma EnqueueAppends(d: Deferral, i: nat)
    requires !d.locked && i < |d.onTheWay|
    ensures var m, e := d.onTheWay[i], StepEnqueue(d, i);
      && e.onTheWay == d.onTheWay[..i] + d.onTheWay[i + 1..]
      && e.inserts.queue == (if m.Insertion? && |d.inserts.queue| < 1_000_000 then d.inserts.queue + [m]
                             else d.inserts.queue)
      && e.deletes.queue == (if m.Deletion? && |d.deletes.queue| < 1_000_000 then d.deletes.queue + [m]
                             else d.deletes.queue)
      && e.arrived == d.arrived + (if e.inserts == d.inserts && e.deletes == d.deletes then [] else [m])
  {
    var m := d.onTheWay[i];
    assert |d.inserts.queue + [m]| == |d.inserts.queue| + 1 && |d.deletes.queue + [m]| == |d.deletes.queue| + 1;
    assert d.arrived + [] == d.arrived;
  }

  /** When the drain gives up the lock, each queue has replayed everything of its kind that arrived so far, in order of
      arrival. */
  lemma DrainReplaysEverything(s: State, choice: bool)
    requires Shaped(s) && DeferralInv(s) && s.srv.pc.ReplayDeletes? && s.dfr.deletes.queue == []
    ensures var t := Step(s, ServerStep(choice));
      !t.dfr.locked && t.dfr.inserts.replayed == Kind(t.dfr.arrived, true) &&
          t.dfr.deletes.replayed == Kind(t.dfr.arrived, false)
  {
    assert s.dfr.inserts.replayed + [] == s.dfr.inserts.replayed &&
        s.dfr.deletes.replayed + [] == s.dfr.deletes.replayed;
  }

  // ----- every run -----

  predicate SafetyInv(s: State) {
    ControlInv(s) && FlagInv(s) && DeferralInv(s)
  }

  lemma InitialIsSafe(slots: nat, laneCount: nat, bulkLoaded: nat, entries: nat, clients: set<nat>)
    requires slots >= 3 && laneCount > 0
    ensures SafetyInv(Initial(slots, laneCount, bulkLoaded, entries, clients))
  {
  }

  /** In every reachable state the control, flag and queue invariants hold. */
  lemma {:induction false} EveryRunIsSafe(s: State, actions: seq<Action>)
    requires SafetyInv(s)
    ensures SafetyInv(Run(s, actions))
  {
    if actions != [] {
      var n := |actions| - 1;
      EveryRunIsSafe(s, actions[..n]);
      var t := Run(s, actions[..n]);
      ControlPreserved(t, actions[n]);
      FlagPreserved(t, actions[n]);
      DeferralPreserved(t, actions[n]);
      hide ControlInv, FlagInv, DeferralInv, Step;
    }
  }
}
