/** The server thread on its own, from one phase to the next: the exact state after each stage of a resize and after a
    whole one. */
module ResizeStages {
  import opened Hashing
  import opened ResizeMachine
  import opened ResizeSafety

  // ----- runs in parts -----

  lemma RunLast(s: State, a: seq<Action>, last: Action)
    requires Shaped(s)
    ensures Run(s, a + [last]) == Step(Run(s, a), last)
  {
    hide Step;
    assert (a + [last])[..|a|] == a;
  }

  lemma {:induction false} RunInParts(s: State, a: seq<Action>, b: seq<Action>)
    requires Shaped(s)
    ensures Run(s, a + b) == Run(Run(s, a), b)
  {
    hide Step, Run;
    if b == [] {
      assert a + b == a;
      RunNothing(Run(s, a));
    } else {
      var n := |b| - 1;
      RunInParts(s, a, b[..n]);
      assert a + b == a + b[..n] + [b[n]] && b == b[..n] + [b[n]];
      RunLast(s, a + b[..n], b[n]);
      RunLast(Run(s, a), b[..n], b[n]);
    }
  }

  lemma RunNothing(s: State)
    requires Shaped(s)
    ensures Run(s, []) == s
  {
  }

  lemma OneStep(s: State, a: Action)
    requires Shaped(s)
    ensures Run(s, [a]) == Step(s, a)
  {
    hide Step;
    RunNothing(s);
    assert [] + [a] == [a];
    RunLast(s, [], a);
  }

  /** The server thread alone takes `n` steps. */
  function Times(n: nat): (actions: seq<Action>)
    ensures |actions| == n
  {
    if n == 0 then [] else [ServerStep(true)] + Times(n - 1)
  }

  function Serve(s: State, n: nat): (t: State)
    requires Shaped(s)
    ensures Shaped(t)
    decreases n
  {
    if n == 0 then s
    else
      StepShaped(s, ServerStep(true));
      Serve(Step(s, ServerStep(true)), n - 1)
  }

  lemma {:induction false} ServeIsRun(s: State, n: nat)
    requires Shaped(s)
    ensures Run(s, Times(n)) == Serve(s, n)
    decreases n
  {
    if n > 0 {
      StepShaped(s, ServerStep(true));
      OneStep(s, ServerStep(true));
      RunInParts(s, [ServerStep(true)], Times(n - 1));
      ServeIsRun(Step(s, ServerStep(true)), n - 1);
    }
  }

  lemma {:induction false} ServeInParts(s: State, a: nat, b: nat)
    requires Shaped(s)
    ensures Serve(s, a + b) == Serve(Serve(s, a), b)
    decreases a
  {
    if a > 0 {
      StepShaped(s, ServerStep(true));
      ServeInParts(Step(s, ServerStep(true)), a - 1, b);
    }
  }

  lemma Rejoin(a: seq<Mutation>, q: seq<Mutation>)
    ensures q == [] ==> a + q == a
    ensures q != [] ==> a + [q[0]] + q[1..] == a + q
  {
  }

  // ----- stages -----

  /** The registry after a change of phase. */
  function InPhase(reg: Registry, target: Phase, blocked: bool, bumps: nat): Registry {
    reg.(phase := target, blocked := blocked, generation := reg.generation + bumps)
  }

  /** The three stores of a change of phase. The flag is set for the three phases of a running copy and drain. */
  lemma PhaseStores(s: State)
    requires Shaped(s) && s.srv.pc.SetFlag?
    ensures var to := s.srv.pc.target;
      Serve(s, 3) == At(s, s.srv.pc.after).(
        reg := InPhase(s.reg, to, to == Copying || to == ReadyToSwitch || to == DrainOld, 1))
  {
    Three(s);
  }

  lemma Three(s: State)
    requires Shaped(s)
    ensures var s1 := Step(s, ServerStep(true));
      Shaped(s1) && Shaped(Step(s1, ServerStep(true)))
      && Serve(s, 3) == Step(Step(s1, ServerStep(true)), ServerStep(true))
  {
    hide Step;
    var T := ServerStep(true);
    StepShaped(s, T);
    StepShaped(Step(s, T), T);
    assert Serve(s, 3) == Serve(Step(s, T), 2);
    assert Serve(Step(s, T), 2) == Serve(Step(Step(s, T), T), 1);
    assert Serve(Step(Step(s, T), T), 1) == Serve(Step(Step(Step(s, T), T), T), 0);
  }

  lemma One(s: State)
    requires Shaped(s)
    ensures Serve(s, 1) == Step(s, ServerStep(true))
  {
    hide Step;
    assert Serve(s, 1) == Serve(Step(s, ServerStep(true)), 0);
  }

  /** From rest: the decision to change phase, and its stores. */
  lemma LeavePhase(s: State, target: Phase, after: Pc)
    requires Shaped(s) && s.srv.pc.Idle?
    requires Monitor(s, true) == At(s, SetFlag(target, after))
    ensures Serve(s, 4) == At(s, after).(
        reg := InPhase(s.reg, target, target == Copying || target == ReadyToSwitch || target == DrainOld, 1))
  {
    ServeInParts(s, 1, 3);
    One(s);
    PhaseStores(At(s, SetFlag(target, after)));
    hide Serve;
  }

  /** The decision to resize: mutations are refused, and the server is about to create the region. */
  lemma BeginStage(s: State)
    requires Shaped(s) && s.srv.pc.Idle? && s.reg.phase.Normal?
    ensures Serve(s, 8) == At(s, CreateRegion(s.reg.current)).(reg := InPhase(s.reg, Copying, true, 2))
  {
    hide Serve, Step;
    ServeInParts(s, 4, 4);
    LeavePhase(s, PreResize, Idle);
    LeavePhase(Serve(s, 4), Copying, CreateRegion(s.reg.current));
  }

  /** The version after `v`: a version whose slot would be 0 is skipped. */
  function Successor(slots: nat, v: nat): nat
    requires slots > 0
  {
    if (v + 1) % slots == 0 then v + 2 else v + 1
  }

  /** The record of the next version, with twice the entries. */
  lemma RecordStage(s: State)
    requires Shaped(s) && s.srv.pc.CreateRegion?
    ensures var slots, o := s.epochSlots, s.srv.pc.oldVer;
      var n, e := Successor(slots, o), s.reg.epochs[o % slots].entries;
      Serve(s, 2) == At(s, ResetLane(o, n, 0)).(
        reg := s.reg.(epochs := s.reg.epochs[n % slots := Epoch(n, 2 * e, s.reg.epochs[n % slots].published, false)]),
        alc := s.alc.(bounds := s.alc.bounds[n := 2 * e]))
  {
    var T := ServerStep(true);
    var o := s.srv.pc.oldVer;
    NextVersionIs(s.epochSlots, o);
    MaskedIsRemainder(NextVersion(s.epochSlots, o), s.epochSlots);
    var s1 := Step(s, T);
    assert Serve(s, 2) == Serve(s1, 1);
    One(s1);
    hide Serve, NextVersion, Masked;
  }

  lemma LaneStep(s: State)
    requires Shaped(s) && s.srv.pc.ResetLane? && s.srv.pc.lane <= |s.reg.lanes|
    ensures var o, n, i := s.srv.pc.oldVer, s.srv.pc.newVer, s.srv.pc.lane;
      Step(s, ServerStep(true)) ==
        if i < |s.reg.lanes|
        then At(s, ResetLane(o, n, i + 1)).(
          reg := s.reg.(lanes := s.reg.lanes[i := s.reg.epochs[o % s.epochSlots].entries + i]))
        else At(s, Publish(o, n))
  {
    MaskedIsRemainder(s.srv.pc.oldVer, s.epochSlots);
  }

  /** The lanes from number `i` on start after `e` entries. */
  function Reset(lanes: seq<nat>, i: nat, e: nat): (r: seq<nat>)
    ensures |r| == |lanes|
    ensures forall j :: 0 <= j < |r| ==> r[j] == if j < i then lanes[j] else e + j
  {
    seq(|lanes|, j requires 0 <= j < |lanes| => if j < i then lanes[j] else e + j)
  }

  /** The lanes move to the numbers that follow the old region's entries. */
  lemma {:induction false} LaneStage(s: State)
    requires Shaped(s) && s.srv.pc.ResetLane? && s.srv.pc.lane <= |s.reg.lanes|
    ensures var o, n, i := s.srv.pc.oldVer, s.srv.pc.newVer, s.srv.pc.lane;
      Serve(s, |s.reg.lanes| - i + 1) == At(s, Publish(o, n)).(
        reg := s.reg.(lanes := Reset(s.reg.lanes, i, s.reg.epochs[o % s.epochSlots].entries)))
    decreases |s.reg.lanes| - s.srv.pc.lane
  {
    var i, m := s.srv.pc.lane, |s.reg.lanes|;
    var e := s.reg.epochs[s.srv.pc.oldVer % s.epochSlots].entries;
    var t := Step(s, ServerStep(true));
    StepShaped(s, ServerStep(true));
    LaneStep(s);
    assert Serve(s, m - i + 1) == Serve(t, m - i);
    hide Step, Serve, Reset;
    if i < m {
      LaneStage(t);
      assert Reset(t.reg.lanes, i + 1, e) == Reset(s.reg.lanes, i, e);
    } else {
      ServeNothing(t);
      assert Reset(s.reg.lanes, i, e) == s.reg.lanes;
    }
  }

  lemma ServeNothing(s: State)
    requires Shaped(s)
    ensures Serve(s, 0) == s
  {
  }

  lemma PublishStep(s: State)
    requires Shaped(s) && s.srv.pc.Publish?
    ensures var slots, o, n := s.epochSlots, s.srv.pc.oldVer, s.srv.pc.newVer;
      var es := s.reg.epochs[n % slots := s.reg.epochs[n % slots].(published := true)];
      Step(s, ServerStep(true)) == At(s, StorePrevious(o, n)).(reg := s.reg.(epochs := es))
  {
    MaskedIsRemainder(s.srv.pc.newVer, s.epochSlots);
  }

  lemma SwitchSteps(s: State)
    requires Shaped(s) && s.srv.pc.StorePrevious?
    ensures var o, n := s.srv.pc.oldVer, s.srv.pc.newVer;
      Serve(s, 3) == At(s, SetFlag(ReadyToSwitch, TakeOver(o, n))).(
        reg := s.reg.(previous := o, current := n, generation := s.reg.generation + 1),
        alc := s.alc.(base := s.reg.epochs[o % s.epochSlots].entries))
  {
    hide Serve, Step;
    var o, n := s.srv.pc.oldVer, s.srv.pc.newVer;
    Three(s);
    var t := At(s, StoreCurrent(o, n)).(reg := s.reg.(previous := o));
    PreviousStep(s);
    CurrentStep(t);
    SwitchBump(At(t, BumpAfterSwitch(o, n)).(
      reg := t.reg.(current := n), alc := t.alc.(base := t.reg.epochs[o % t.epochSlots].entries)));
  }

  lemma PreviousStep(s: State)
    requires Shaped(s) && s.srv.pc.StorePrevious?
    ensures var o, n := s.srv.pc.oldVer, s.srv.pc.newVer;
      Step(s, ServerStep(true)) == At(s, StoreCurrent(o, n)).(reg := s.reg.(previous := o))
  {
  }

  lemma CurrentStep(s: State)
    requires Shaped(s) && s.srv.pc.StoreCurrent?
    ensures var o, n := s.srv.pc.oldVer, s.srv.pc.newVer;
      Step(s, ServerStep(true)) == At(s, BumpAfterSwitch(o, n)).(
        reg := s.reg.(current := n), alc := s.alc.(base := s.reg.epochs[o % s.epochSlots].entries))
  {
    MaskedIsRemainder(s.srv.pc.oldVer, s.epochSlots);
  }

  lemma SwitchBump(s: State)
    requires Shaped(s) && s.srv.pc.BumpAfterSwitch?
    ensures Step(s, ServerStep(true)) == At(s, SetFlag(ReadyToSwitch, TakeOver(s.srv.pc.oldVer, s.srv.pc.newVer))).(
        reg := s.reg.(generation := s.reg.generation + 1))
  {
  }

  /** Publication, and the switch of the current version. */
  lemma PublishStage(s: State)
    requires Shaped(s) && s.srv.pc.Publish?
    ensures var slots, o, n := s.epochSlots, s.srv.pc.oldVer, s.srv.pc.newVer;
      var es := s.reg.epochs[n % slots := s.reg.epochs[n % slots].(published := true)];
      Serve(s, 4) == At(s, SetFlag(ReadyToSwitch, TakeOver(o, n))).(
        reg := s.reg.(epochs := es, previous := o, current := n, generation := s.reg.generation + 1),
        alc := s.alc.(base := es[o % slots].entries))
  {
    hide Serve, Step;
    ServeInParts(s, 1, 3);
    One(s);
    PublishStep(s);
    SwitchSteps(Serve(s, 1));
  }

  /** The server takes over the new region, and the drain has the queue lock. */
  lemma SwitchStage(s: State)
    requires Shaped(s) && s.srv.pc.SetFlag? && s.srv.pc.target.ReadyToSwitch? && s.srv.pc.after.TakeOver?
    ensures Serve(s, 9) == s.(
        reg := InPhase(s.reg, DrainOld, true, 2),
        srv := Server(ReplayInserts, s.srv.pc.after.oldVer, s.srv.pc.after.newVer, s.srv.released),
        dfr := s.dfr.(locked := true))
  {
    hide Serve, Step;
    ServeInParts(s, 3, 6);
    PhaseStores(s);
    var t := Serve(s, 3);
    ServeInParts(t, 1, 5);
    One(t);
    TakeOverStep(t);
    var u := Serve(t, 1);
    ServeInParts(u, 4, 1);
    LeavePhase(u, DrainOld, Idle);
    One(Serve(u, 4));
    LockStep(Serve(u, 4));
  }

  lemma TakeOverStep(s: State)
    requires Shaped(s) && s.srv.pc.TakeOver?
    ensures Step(s, ServerStep(true)) == s.(srv := Server(Idle, s.srv.pc.oldVer, s.srv.pc.newVer, s.srv.released))
  {
  }

  lemma LockStep(s: State)
    requires Shaped(s) && s.srv.pc.Idle? && s.reg.phase.DrainOld?
    ensures Step(s, ServerStep(true)) == At(s, ReplayInserts).(dfr := s.dfr.(locked := true))
  {
  }

  /** One deferred insertion is replayed, or the insertion queue is at its end. */
  lemma InsertStep(s: State)
    requires Shaped(s) && s.srv.pc.ReplayInserts?
    ensures var l, d := s.dfr.inserts, s.dfr.drains;
      Step(s, ServerStep(true)) ==
        if l.queue == [] then At(s, ReplayDeletes)
        else s.(dfr := s.dfr.(inserts := Log(l.queue[1..], l.enqueued, l.replayed + [l.queue[0]]),
                              drains := d.(replays := d.replays + [l.queue[0]])))
  {
  }

  /** The insertion queue is replayed from the front. */
  lemma {:induction false} InsertsStage(s: State)
    requires Shaped(s) && s.srv.pc.ReplayInserts?
    ensures var l := s.dfr.inserts;
      Serve(s, |l.queue| + 1) == At(s, ReplayDeletes).(dfr := s.dfr.(
        inserts := Log([], l.enqueued, l.replayed + l.queue),
        drains := s.dfr.drains.(replays := s.dfr.drains.replays + l.queue)))
    decreases |s.dfr.inserts.queue|
  {
    var l, r := s.dfr.inserts, s.dfr.drains.replays;
    var t := Step(s, ServerStep(true));
    StepShaped(s, ServerStep(true));
    InsertStep(s);
    assert Serve(s, |l.queue| + 1) == Serve(t, |l.queue|);
    hide Serve, Step;
    Rejoin(l.replayed, l.queue);
    Rejoin(r, l.queue);
    if l.queue == [] { ServeNothing(t); } else { InsertsStage(t); }
  }

  /** One deferred deletion is replayed, or the deletion queue is at its end. */
  lemma DeleteStep(s: State)
    requires Shaped(s) && s.srv.pc.ReplayDeletes?
    ensures var l, d := s.dfr.deletes, s.dfr.drains;
      Step(s, ServerStep(true)) ==
        if l.queue == [] then At(s, AllowCleanup).(
          dfr := s.dfr.(locked := false, drains := Drains(d.batches + [d.late], [], d.replays)))
        else s.(dfr := s.dfr.(deletes := Log(l.queue[1..], l.enqueued, l.replayed + [l.queue[0]]),
                              drains := d.(replays := d.replays + [l.queue[0]])))
  {
  }

  /** Then the deletion queue; at its end the drain gives up the lock and allows the old region to be reclaimed. */
  lemma {:induction false} DeletesStage(s: State)
    requires Shaped(s) && s.srv.pc.ReplayDeletes?
    ensures var l, d := s.dfr.deletes, s.dfr.drains;
      Serve(s, |l.queue| + 1) == At(s, AllowCleanup).(dfr := s.dfr.(locked := false,
        deletes := Log([], l.enqueued, l.replayed + l.queue),
        drains := Drains(d.batches + [d.late], [], d.replays + l.queue)))
    decreases |s.dfr.deletes.queue|
  {
    var l, r := s.dfr.deletes, s.dfr.drains.replays;
    var t := Step(s, ServerStep(true));
    StepShaped(s, ServerStep(true));
    DeleteStep(s);
    assert Serve(s, |l.queue| + 1) == Serve(t, |l.queue|);
    hide Serve, Step;
    Rejoin(l.replayed, l.queue);
    Rejoin(r, l.queue);
    if l.queue == [] { ServeNothing(t); } else { DeletesStage(t); }
  }

  /** The deferral after a drain that nothing interrupts: insertions are replayed before deletions. */
  function Drained(d: Deferral): Deferral {
    Deferral(false, d.onTheWay, Log([], d.inserts.enqueued, d.inserts.replayed + d.inserts.queue),
      Log([], d.deletes.enqueued, d.deletes.replayed + d.deletes.queue), d.arrived,
      Drains(d.drains.batches + [d.drains.late], [], d.drains.replays + d.inserts.queue + d.deletes.queue))
  }

  lemma DrainStage(s: State)
    requires Shaped(s) && s.srv.pc.ReplayInserts?
    ensures Serve(s, |s.dfr.inserts.queue| + |s.dfr.deletes.queue| + 2) ==
        At(s, AllowCleanup).(dfr := Drained(s.dfr))
  {
    hide Serve, Step;
    var a, b := |s.dfr.inserts.queue| + 1, |s.dfr.deletes.queue| + 1;
    ServeInParts(s, a, b);
    InsertsStage(s);
    DeletesStage(Serve(s, a));
  }

  /** The old region is released, and the server is back in the normal phase. */
  lemma ReclaimStage(s: State)
    requires Shaped(s) && s.srv.pc.AllowCleanup? && s.srv.pendingOld > 0
    ensures var o, slots := s.srv.pendingOld, s.epochSlots;
      Serve(s, 11) == s.(
        reg := InPhase(s.reg, Normal, false, 3).(previous := 0,
          epochs := s.reg.epochs[o % slots := s.reg.epochs[o % slots].(cleanup := true)]),
        srv := Server(Idle, 0, s.srv.region, s.srv.released + {o}))
  {
    hide Serve, Step;
    ServeInParts(s, 1, 10);
    One(s);
    CleanupStep(s);
    var t := Serve(s, 1);
    ServeInParts(t, 3, 7);
    PhaseStores(t);
    var u := Serve(t, 3);
    ServeInParts(u, 4, 3);
    ReleaseSteps(u);
    PhaseStores(Serve(u, 4));
  }

  lemma CleanupStep(s: State)
    requires Shaped(s) && s.srv.pc.AllowCleanup? && s.srv.pendingOld > 0
    ensures var o, slots := s.srv.pendingOld, s.epochSlots;
      Step(s, ServerStep(true)) == At(s, SetFlag(GcPending, Idle)).(
        reg := s.reg.(epochs := s.reg.epochs[o % slots := s.reg.epochs[o % slots].(cleanup := true)]))
  {
    MaskedIsRemainder(s.srv.pendingOld, s.epochSlots);
  }

  lemma ReleaseSteps(s: State)
    requires Shaped(s) && s.srv.pc.Idle? && s.reg.phase.GcPending? && s.srv.pendingOld > 0
    ensures Serve(s, 4) == s.(
        reg := s.reg.(previous := 0, generation := s.reg.generation + 1),
        srv := Server(SetFlag(Normal, Idle), 0, s.srv.region, s.srv.released + {s.srv.pendingOld}))
  {
    hide Serve, Step;
    ServeInParts(s, 1, 3);
    One(s);
    assert Serve(s, 1) == At(s, ReleaseRegion) by { ReleaseBegins(s); }
    UnlinkSteps(At(s, ReleaseRegion));
  }

  lemma ReleaseBegins(s: State)
    requires Shaped(s) && s.srv.pc.Idle? && s.reg.phase.GcPending?
    ensures Step(s, ServerStep(true)) == At(s, ReleaseRegion)
  {
  }

  lemma UnlinkSteps(s: State)
    requires Shaped(s) && s.srv.pc.ReleaseRegion? && s.srv.pendingOld > 0
    ensures Serve(s, 3) == s.(
        reg := s.reg.(previous := 0, generation := s.reg.generation + 1),
        srv := Server(SetFlag(Normal, Idle), 0, s.srv.region, s.srv.released + {s.srv.pendingOld}))
  {
    hide Serve, Step;
    Three(s);
    var t := s.(srv := Server(ClearPrevious, 0, s.srv.region, s.srv.released + {s.srv.pendingOld}));
    UnlinkStep(s);
    ClearStep(t);
    BumpStep(At(t, BumpAfterGc).(reg := s.reg.(previous := 0)));
  }

  lemma UnlinkStep(s: State)
    requires Shaped(s) && s.srv.pc.ReleaseRegion? && s.srv.pendingOld > 0
    ensures Step(s, ServerStep(true)) ==
        s.(srv := Server(ClearPrevious, 0, s.srv.region, s.srv.released + {s.srv.pendingOld}))
  {
  }

  lemma ClearStep(s: State)
    requires Shaped(s) && s.srv.pc.ClearPrevious?
    ensures Step(s, ServerStep(true)) == At(s, BumpAfterGc).(reg := s.reg.(previous := 0))
  {
  }

  lemma BumpStep(s: State)
    requires Shaped(s) && s.srv.pc.BumpAfterGc?
    ensures Step(s, ServerStep(true)) ==
        At(s, SetFlag(Normal, Idle)).(reg := s.reg.(generation := s.reg.generation + 1))
  {
  }

  // ----- a whole resize -----

  /** The state after a resize from version `o` to version `n`. */
  function Resized(s: State, o: nat, n: nat, e: nat): State
    requires Shaped(s)
  {
    var slots := s.epochSlots;
    State(slots, s.bulkLoaded,
      Registry(Normal, false, n, 0, s.reg.generation + 8,
        s.reg.epochs[n % slots := Epoch(n, 2 * e, true, false)][
          o % slots := s.reg.epochs[o % slots].(cleanup := true)],
        Reset(s.reg.lanes, 0, e)),
      Server(Idle, 0, n, s.srv.released + {o}),
      Drained(s.dfr),
      s.alc.(base := e, bounds := s.alc.bounds[n := 2 * e]))
  }

  /** The state when the new version has just become current. */
  function Copied(s: State, o: nat, n: nat, e: nat): State
    requires Shaped(s)
  {
    s.(reg := s.reg.(phase := Copying, blocked := true, previous := o, current := n,
                     generation := s.reg.generation + 3, lanes := Reset(s.reg.lanes, 0, e),
                     epochs := s.reg.epochs[n % s.epochSlots := Epoch(n, 2 * e, true, false)]),
       srv := s.srv.(pc := SetFlag(ReadyToSwitch, TakeOver(o, n))),
       alc := s.alc.(base := e, bounds := s.alc.bounds[n := 2 * e]))
  }

  lemma NextIsApart(s: State)
    requires ControlInv(s)
    ensures var slots, o := s.epochSlots, s.reg.current;
      0 < o && Successor(slots, o) % slots != o % slots
  {
    NextVersionIs(s.epochSlots, s.reg.current);
    NextVersionIs(s.epochSlots, NextVersion(s.epochSlots, s.reg.current));
    NextVersionIsSafe(s.epochSlots, s.reg.current);
    hide NextVersion, Masked;
  }

  lemma CopyStage(s: State)
    requires Shaped(s) && s.srv.pc.Idle? && s.reg.phase.Normal?
    requires Successor(s.epochSlots, s.reg.current) % s.epochSlots != s.reg.current % s.epochSlots
    ensures var slots, o := s.epochSlots, s.reg.current;
      Serve(s, 15 + |s.reg.lanes|) == Copied(s, o, Successor(slots, o), s.reg.epochs[o % slots].entries)
  {
    hide Serve, Step;
    var m := |s.reg.lanes|;
    ServeInParts(s, 8, 7 + m);
    BeginStage(s);
    var t := Serve(s, 8);
    ServeInParts(t, 2, 5 + m);
    RecordStage(t);
    var u := Serve(t, 2);
    ServeInParts(u, m + 1, 4);
    LaneStage(u);
    PublishStage(Serve(u, m + 1));
    hide Reset;
  }

  /** A resize that nothing interrupts ends where it began, with the next version current at twice the capacity, the
      lanes at the first new entry, the old region released and every deferred mutation replayed. */
  lemma WholeResize(s: State)
    requires ControlInv(s) && s.srv.pc.Idle? && s.reg.phase.Normal?
    ensures var slots, o := s.epochSlots, s.reg.current;
      var steps := 37 + |s.reg.lanes| + |s.dfr.inserts.queue| + |s.dfr.deletes.queue|;
      Serve(s, steps) == Resized(s, o, Successor(slots, o), s.reg.epochs[o % slots].entries)
  {
    hide Serve, Step, ControlInv;
    var q := |s.dfr.inserts.queue| + |s.dfr.deletes.queue|;
    ControlShape(s);
    NextIsApart(s);
    ServeInParts(s, 15 + |s.reg.lanes|, 22 + q);
    CopyStage(s);
    var t := Serve(s, 15 + |s.reg.lanes|);
    hide Successor, Drained, Reset;
    ServeInParts(t, 9, 13 + q);
    SwitchStage(t);
    var u := Serve(t, 9);
    ServeInParts(u, q + 2, 11);
    DrainStage(u);
    ReclaimStage(Serve(u, q + 2));
  }
}
